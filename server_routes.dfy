/**
 * The assessment scoring engine of the server: the dimension table and the
 * `calculate` handler, which turns an assessment's indicator values into six
 * normalised dimension scores, a weighted total and a development status.
 */
module ServerRoutes {
  import opened Wrappers
  import opened Text
  import opened Schema
  import opened Storage

  /** A row of the server's dimension table: a value belongs to the dimension when its code starts with `prefix`. */
  datatype Dimension = Dimension(id: string, name: string, weight: real, prefix: string)

  const DIMENSIONS: seq<Dimension> := [
    Dimension("1", "Layanan Dasar", 26.77, "1"),
    Dimension("2", "Sosial", 13.39, "2"),
    Dimension("3", "Ekonomi", 25.20, "3"),
    Dimension("4", "Lingkungan", 14.17, "4"),
    Dimension("5", "Aksesibilitas", 7.87, "5"),
    Dimension("6", "Tata Kelola", 12.60, "6")
  ]

  function SumOfWeights(dims: seq<Dimension>): real {
    if dims == [] then 0.0 else SumOfWeights(dims[..|dims| - 1]) + dims[|dims| - 1].weight
  }

  /** The six weights add up to exactly 100, so the total is a weighted average. */
  lemma WeightsSumTo100()
    ensures SumOfWeights(DIMENSIONS) == 100.0
    ensures forall k :: 0 <= k < |DIMENSIONS| ==> DIMENSIONS[k].weight > 0.0
  {
    DimensionSlices();
    assert SumOfWeights(DIMENSIONS[..1]) == 26.77;
    assert SumOfWeights(DIMENSIONS[..2]) == 26.77 + 13.39;
    assert SumOfWeights(DIMENSIONS[..3]) == 26.77 + 13.39 + 25.20;
    assert SumOfWeights(DIMENSIONS[..4]) == 26.77 + 13.39 + 25.20 + 14.17;
    assert SumOfWeights(DIMENSIONS[..5]) == 26.77 + 13.39 + 25.20 + 14.17 + 7.87;
  }

  predicate NamesDistinct(dims: seq<Dimension>) {
    forall i, j :: 0 <= i < j < |dims| ==> dims[i].name != dims[j].name
  }

  /**
   * The prefixes are the distinct single digits '1'..'6': a code matches at
   * most one dimension, and a code that starts with any other character matches none.
   */
  lemma PrefixesDisjoint(code: string)
    ensures forall i, j | 0 <= i < |DIMENSIONS| && 0 <= j < |DIMENSIONS| &&
      StartsWith(code, DIMENSIONS[i].prefix) && StartsWith(code, DIMENSIONS[j].prefix) :: i == j
    ensures (code == [] || !('1' <= code[0] <= '6')) ==>
      forall i :: 0 <= i < |DIMENSIONS| ==> !StartsWith(code, DIMENSIONS[i].prefix)
  {
    forall i | 0 <= i < |DIMENSIONS| ensures |DIMENSIONS[i].prefix| == 1 && DIMENSIONS[i].prefix[0] == ('1' as int + i) as char {
    }
  }

  /** The prefix of the k-th dimension is the one digit k + 1. */
  lemma PrefixesAreDigits()
    ensures |DIMENSIONS| == 6
    ensures forall k :: 0 <= k < |DIMENSIONS| ==> DIMENSIONS[k].prefix == [DigitChar(k + 1)]
  {
  }

  /** The scores the `updateValues` input admits: 1 <= value <= 5. */
  predicate InRange(values: seq<AssessmentValue>) {
    forall i :: 0 <= i < |values| ==> 1 <= values[i].value <= 5
  }

  /** The values whose indicator code starts with `prefix`, in order. */
  function MatchingValues(values: seq<AssessmentValue>, prefix: string): (r: seq<AssessmentValue>)
    ensures |r| <= |values|
  {
    if values == [] then []
    else if StartsWith(values[0].indicatorCode, prefix) then [values[0]] + MatchingValues(values[1..], prefix)
    else MatchingValues(values[1..], prefix)
  }

  /** The matching rows are exactly the rows whose code starts with the prefix, in their original order. */
  lemma {:induction false} MatchingValuesMembers(values: seq<AssessmentValue>, prefix: string)
    ensures forall i :: 0 <= i < |MatchingValues(values, prefix)| ==>
      MatchingValues(values, prefix)[i] in values && StartsWith(MatchingValues(values, prefix)[i].indicatorCode, prefix)
    ensures forall i :: 0 <= i < |values| && StartsWith(values[i].indicatorCode, prefix) ==> values[i] in MatchingValues(values, prefix)
  {
    if values != [] {
      MatchingValuesMembers(values[1..], prefix);
      assert values == [values[0]] + values[1..];
    }
  }

  /** Appending a row extends the matching rows by that row exactly when its code matches. */
  lemma {:induction false} MatchingValuesAppend(values: seq<AssessmentValue>, extra: AssessmentValue, prefix: string)
    ensures MatchingValues(values + [extra], prefix) ==
      MatchingValues(values, prefix) + (if StartsWith(extra.indicatorCode, prefix) then [extra] else [])
  {
    if values == [] {
      assert [] + [extra] == [extra];
      assert [extra][1..] == [];
    } else {
      assert (values + [extra])[0] == values[0];
      assert (values + [extra])[1..] == values[1..] + [extra];
      MatchingValuesAppend(values[1..], extra, prefix);
    }
  }

  /** No row matches the prefix exactly when the matching rows are empty. */
  lemma {:induction false} MatchingValuesEmpty(values: seq<AssessmentValue>, prefix: string)
    ensures MatchingValues(values, prefix) == [] <==>
      forall x :: x in values ==> !StartsWith(x.indicatorCode, prefix)
  {
    if values != [] {
      MatchingValuesEmpty(values[1..], prefix);
      assert values == [values[0]] + values[1..];
    }
  }

  /** The sum of the scores of `rows`. */
  function SumValues(rows: seq<AssessmentValue>): int {
    if rows == [] then 0 else rows[0].value + SumValues(rows[1..])
  }

  /**
   * One dimension's normalised score: 0 when no value matches it, otherwise
   * the mean of the matching values mapped linearly from 1..5 onto 20..100.
   */
  function DimensionScore(values: seq<AssessmentValue>, dim: Dimension): real {
    var dimValues := MatchingValues(values, dim.prefix);
    if |dimValues| == 0 then 0.0
    else ((SumValues(dimValues) as real / |dimValues| as real) / 5.0) * 100.0
  }

  /** The `dimensionScores` record built for the dimensions `dims`. */
  function ScoreMap(values: seq<AssessmentValue>, dims: seq<Dimension>): map<string, real> {
    if dims == [] then map[]
    else
      var last := dims[|dims| - 1];
      ScoreMap(values, dims[..|dims| - 1])[last.name := DimensionScore(values, last)]
  }

  /** The unrounded `totalScore` accumulated over the dimensions `dims`. */
  function WeightedTotal(values: seq<AssessmentValue>, dims: seq<Dimension>): real {
    if dims == [] then 0.0
    else
      var last := dims[|dims| - 1];
      WeightedTotal(values, dims[..|dims| - 1]) + Share(DimensionScore(values, last), last.weight)
  }

  /** A dimension's contribution to the total: its score scaled by its weight percentage. */
  function Share(score: real, weight: real): real {
    (score * weight) / 100.0
  }

  /** The status thresholds, tried in order with `<`. */
  function StatusFor(total: real): Status {
    if total < 30.0 then SangatTertinggal
    else if total < 50.0 then Tertinggal
    else if total < 70.0 then Berkembang
    else if total < 90.0 then Maju
    else Mandiri
  }

  /**
   * The body of the `calculate` handler after the assessment is found: a fresh
   * score record and a zero total, one pass over the dimension table, then the status.
   */
  method ComputeScores(values: seq<AssessmentValue>) returns (dimensionScores: map<string, real>, totalScore: real, status: string)
    ensures dimensionScores == ScoreMap(values, DIMENSIONS)
    ensures totalScore == WeightedTotal(values, DIMENSIONS)
    ensures status == Label(StatusFor(totalScore))
  {
    dimensionScores := map[];
    totalScore := 0.0;
    for d := 0 to |DIMENSIONS|
      invariant dimensionScores == ScoreMap(values, DIMENSIONS[..d])
      invariant totalScore == WeightedTotal(values, DIMENSIONS[..d])
    {
      var dim := DIMENSIONS[d];
      PrefixStep(values, DIMENSIONS, d);
      var dimValues := MatchingValues(values, dim.prefix);
      if |dimValues| == 0 {
        assert DimensionScore(values, dim) == 0.0;
        TotalStep(values, DIMENSIONS, d, totalScore, 0.0);
        dimensionScores := dimensionScores[dim.name := 0.0];
        continue;
      }
      var sum := SumValues(dimValues);
      var avg := sum as real / |dimValues| as real;
      var normalizedAvg := (avg / 5.0) * 100.0;
      assert normalizedAvg == DimensionScore(values, dim);
      TotalStep(values, DIMENSIONS, d, totalScore, normalizedAvg);
      dimensionScores := dimensionScores[dim.name := normalizedAvg];
      totalScore := totalScore + (normalizedAvg * dim.weight) / 100.0;
    }
    assert DIMENSIONS[..|DIMENSIONS|] == DIMENSIONS;
    if totalScore < 30.0 {
      status := "Sangat Tertinggal";
    } else if totalScore < 50.0 {
      status := "Tertinggal";
    } else if totalScore < 70.0 {
      status := "Berkembang";
    } else if totalScore < 90.0 {
      status := "Maju";
    } else {
      status := "Mandiri";
    }
  }

  /** Extending the processed prefix of the table by one dimension adds that dimension's entry and share. */
  lemma PrefixStep(values: seq<AssessmentValue>, dims: seq<Dimension>, d: nat)
    requires d < |dims|
    ensures ScoreMap(values, dims[..d + 1]) == ScoreMap(values, dims[..d])[dims[d].name := DimensionScore(values, dims[d])]
    ensures WeightedTotal(values, dims[..d + 1]) == WeightedTotal(values, dims[..d]) + Share(DimensionScore(values, dims[d]), dims[d].weight)
  {
    assert dims[..d + 1][..d] == dims[..d];
  }

  lemma TotalStep(values: seq<AssessmentValue>, dims: seq<Dimension>, d: nat, before: real, score: real)
    requires d < |dims| && before == WeightedTotal(values, dims[..d]) && score == DimensionScore(values, dims[d])
    ensures before + (score * dims[d].weight) / 100.0 == WeightedTotal(values, dims[..d + 1])
  {
    PrefixStep(values, dims, d);
  }

  /**
   * `POST /api/assessments/:id/calculate`: not found (`None`) and no change
   * when the assessment is missing; otherwise its scores are recomputed from
   * its current values and stored, the total rounded to two decimals.
   */
  method Calculate(db: Database, id: int) returns (r: Option<Assessment>)
    modifies db
    ensures db.values == old(db.values) && db.villages == old(db.villages)
    ensures old(db.GetAssessment(id)).None? ==> r.None? && db.assessments == old(db.assessments)
    ensures old(db.GetAssessment(id)).Some? ==>
      var vs := old(db.GetAssessment(id)).value.values;
      var total := WeightedTotal(vs, DIMENSIONS);
      && db.assessments == SetDerived(old(db.assessments), id, Label(StatusFor(total)), ToFixed(total, 2), ScoreMap(vs, DIMENSIONS))
      && r.Some? && r.value.id == id
      && r.value.status == Some(Label(StatusFor(total)))
      && r.value.totalScore == Some(ToFixed(total, 2))
      && r.value.dimensionScores == Some(ScoreMap(vs, DIMENSIONS))
    ensures old(db.GetAssessment(id)).Some? ==>
      db.assessments == Recalculated(old(db.assessments), id, ValuesOf(db.values, id)) && db.GetAssessment(id).Some?
  {
    var assessment := db.GetAssessment(id);
    if assessment.None? {
      return None;
    }
    var dimensionScores, totalScore, status := ComputeScores(assessment.value.values);
    r := db.UpdateAssessment(id, status, ToFixed(totalScore, 2), dimensionScores);
    assert r.Some? by {
      var a := assessment.value.assessment;
      var k :| 0 <= k < |old(db.assessments)| && old(db.assessments)[k] == a;
      assert db.assessments[k].id == id;
    }
    assert db.GetAssessment(id).Some? by {
      var a := assessment.value.assessment;
      var k :| 0 <= k < |old(db.assessments)| && old(db.assessments)[k] == a;
      assert db.assessments[k] in db.assessments && db.assessments[k].villageId == a.villageId;
    }
  }

  /** The assessment table after `calculate` on `id` has scored the value rows `vs`. */
  function Recalculated(assessments: seq<Assessment>, id: int, vs: seq<AssessmentValue>): (r: seq<Assessment>)
    ensures |r| == |assessments|
    ensures forall i :: 0 <= i < |r| ==> r[i].id == assessments[i].id && r[i].villageId == assessments[i].villageId
  {
    var total := WeightedTotal(vs, DIMENSIONS);
    SetDerived(assessments, id, Label(StatusFor(total)), ToFixed(total, 2), ScoreMap(vs, DIMENSIONS))
  }

  /**
   * Calculating again without a change to the values leaves the assessments
   * as the first calculation left them. A second `Calculate` finds the
   * assessment again and scores the same value rows, so it returns the same
   * scores and stores nothing new.
   */
  lemma RecalculateIdempotent(assessments: seq<Assessment>, id: int, vs: seq<AssessmentValue>)
    ensures Recalculated(Recalculated(assessments, id, vs), id, vs) == Recalculated(assessments, id, vs)
  {
    var total := WeightedTotal(vs, DIMENSIONS);
    SetDerivedIdempotent(assessments, id, Label(StatusFor(total)), ToFixed(total, 2), ScoreMap(vs, DIMENSIONS));
  }

  // ---------------------------------------------------------------------
  // Properties of the score record
  // ---------------------------------------------------------------------

  /** Every dimension name gets an entry, and the entry is that dimension's score. */
  lemma {:induction false} ScoreMapEntries(values: seq<AssessmentValue>, dims: seq<Dimension>)
    requires NamesDistinct(dims)
    ensures forall k :: 0 <= k < |dims| ==>
      dims[k].name in ScoreMap(values, dims) && ScoreMap(values, dims)[dims[k].name] == DimensionScore(values, dims[k])
  {
    if dims != [] {
      var init := dims[..|dims| - 1];
      ScoreMapEntries(values, init);
      forall k | 0 <= k < |dims| - 1 ensures init[k] == dims[k] && dims[k].name != dims[|dims| - 1].name {
      }
    }
  }

  function Names(dims: seq<Dimension>): set<string> {
    if dims == [] then {} else Names(dims[..|dims| - 1]) + {dims[|dims| - 1].name}
  }

  /** The record has an entry for each processed dimension name and for nothing else. */
  lemma {:induction false} ScoreMapKeys(values: seq<AssessmentValue>, dims: seq<Dimension>)
    ensures ScoreMap(values, dims).Keys == Names(dims)
  {
    if dims != [] {
      ScoreMapKeys(values, dims[..|dims| - 1]);
    }
  }

  lemma DimensionNamesDistinct()
    ensures NamesDistinct(DIMENSIONS)
  {
  }

  /** The score record always holds exactly the six dimension names. */
  lemma ScoreMapHasAllSixNames(values: seq<AssessmentValue>)
    ensures ScoreMap(values, DIMENSIONS).Keys ==
      {"Layanan Dasar", "Sosial", "Ekonomi", "Lingkungan", "Aksesibilitas", "Tata Kelola"}
  {
    ScoreMapKeys(values, DIMENSIONS);
    DimensionSlices();
    assert Names(DIMENSIONS[..1]) == {"Layanan Dasar"};
    assert Names(DIMENSIONS[..2]) == {"Layanan Dasar", "Sosial"};
    assert Names(DIMENSIONS[..3]) == {"Layanan Dasar", "Sosial", "Ekonomi"};
    assert Names(DIMENSIONS[..4]) == {"Layanan Dasar", "Sosial", "Ekonomi", "Lingkungan"};
    assert Names(DIMENSIONS[..5]) == {"Layanan Dasar", "Sosial", "Ekonomi", "Lingkungan", "Aksesibilitas"};
  }

  /** The record's entry for each dimension of the table is that dimension's score. */
  lemma ScoreMapAt(values: seq<AssessmentValue>, k: nat)
    requires k < |DIMENSIONS|
    ensures DIMENSIONS[k].name in ScoreMap(values, DIMENSIONS)
    ensures ScoreMap(values, DIMENSIONS)[DIMENSIONS[k].name] == DimensionScore(values, DIMENSIONS[k])
  {
    DimensionNamesDistinct();
    ScoreMapEntries(values, DIMENSIONS);
  }

  /** A dimension that no value's code matches scores exactly 0. */
  lemma EmptyDimensionScoresZero(values: seq<AssessmentValue>, dim: Dimension)
    requires forall x :: x in values ==> !StartsWith(x.indicatorCode, dim.prefix)
    ensures DimensionScore(values, dim) == 0.0
  {
    MatchingValuesEmpty(values, dim.prefix);
  }

  lemma {:induction false} SumBounds(rows: seq<AssessmentValue>, lo: int, hi: int)
    requires forall i :: 0 <= i < |rows| ==> lo <= rows[i].value <= hi
    ensures |rows| * lo <= SumValues(rows) <= |rows| * hi
  {
    if rows != [] {
      SumBounds(rows[1..], lo, hi);
    }
  }

  lemma MatchingInRange(values: seq<AssessmentValue>, prefix: string)
    requires InRange(values)
    ensures InRange(MatchingValues(values, prefix))
  {
    MatchingValuesMembers(values, prefix);
  }

  /**
   * With values in 1..5 a dimension scores exactly 0 when nothing matches it,
   * and between 20 and 100 otherwise.
   */
  lemma DimensionScoreRange(values: seq<AssessmentValue>, dim: Dimension)
    requires InRange(values)
    ensures MatchingValues(values, dim.prefix) == [] ==> DimensionScore(values, dim) == 0.0
    ensures MatchingValues(values, dim.prefix) != [] ==> 20.0 <= DimensionScore(values, dim) <= 100.0
  {
    var m := MatchingValues(values, dim.prefix);
    if m != [] {
      MatchingInRange(values, dim.prefix);
      SumBounds(m, 1, 5);
      var n := |m| as real;
      var s := SumValues(m) as real;
      DivBetween(s, 1.0, 5.0, n);
    }
  }

  lemma {:induction false} SumOfConstant(rows: seq<AssessmentValue>, v: int)
    requires forall i :: 0 <= i < |rows| ==> rows[i].value == v
    ensures SumValues(rows) == |rows| * v
  {
    if rows != [] {
      SumOfConstant(rows[1..], v);
    }
  }

  /** A dimension whose matching values all equal v scores 20·v: all 5s give 100, all 1s give 20. */
  lemma UniformDimensionScore(values: seq<AssessmentValue>, dim: Dimension, v: int)
    requires MatchingValues(values, dim.prefix) != []
    requires forall x :: x in values && StartsWith(x.indicatorCode, dim.prefix) ==> x.value == v
    ensures DimensionScore(values, dim) == 20.0 * v as real
    ensures v == 5 ==> DimensionScore(values, dim) == 100.0
    ensures v == 1 ==> DimensionScore(values, dim) == 20.0
  {
    var m := MatchingValues(values, dim.prefix);
    MatchingUniform(values, dim.prefix, v);
    SumOfConstant(m, v);
    MeanOfConstant(|m|, v);
  }

  lemma MeanOfConstant(n: nat, v: int)
    requires n > 0
    ensures (((n * v) as real / n as real) / 5.0) * 100.0 == 20.0 * v as real
  {
    CastProduct(v, n);
    DivBetween((n * v) as real, v as real, v as real, n as real);
  }

  lemma MatchingUniform(values: seq<AssessmentValue>, prefix: string, v: int)
    requires forall x :: x in values && StartsWith(x.indicatorCode, prefix) ==> x.value == v
    ensures forall i :: 0 <= i < |MatchingValues(values, prefix)| ==> MatchingValues(values, prefix)[i].value == v
  {
    MatchingValuesMembers(values, prefix);
  }

  // ---------------------------------------------------------------------
  // Properties of the total and the status
  // ---------------------------------------------------------------------

  lemma {:induction false} WeightedTotalBounds(values: seq<AssessmentValue>, dims: seq<Dimension>)
    requires InRange(values)
    requires forall k :: 0 <= k < |dims| ==> dims[k].weight >= 0.0
    ensures 0.0 <= WeightedTotal(values, dims) <= SumOfWeights(dims)
  {
    if dims != [] {
      var last := dims[|dims| - 1];
      WeightedTotalBounds(values, dims[..|dims| - 1]);
      DimensionScoreRange(values, last);
      var s := DimensionScore(values, last);
      MulMono(0.0, s, last.weight);
      MulMono(s, 100.0, last.weight);
    }
  }

  /** With values in 1..5 the total lies in [0, 100]. */
  lemma TotalInRange(values: seq<AssessmentValue>)
    requires InRange(values)
    ensures 0.0 <= WeightedTotal(values, DIMENSIONS) <= 100.0
  {
    WeightsSumTo100();
    WeightedTotalBounds(values, DIMENSIONS);
  }

  lemma {:induction false} WeightedTotalOfEqualScores(values: seq<AssessmentValue>, dims: seq<Dimension>, s: real)
    requires forall k :: 0 <= k < |dims| ==> DimensionScore(values, dims[k]) == s
    ensures WeightedTotal(values, dims) == s * SumOfWeights(dims) / 100.0
  {
    if dims != [] {
      WeightedTotalOfEqualScores(values, dims[..|dims| - 1], s);
    }
  }

  /** When every dimension has the same score, the total is that score (the weights sum to 100). */
  lemma TotalOfEqualScores(values: seq<AssessmentValue>, s: real)
    requires forall k :: 0 <= k < |DIMENSIONS| ==> DimensionScore(values, DIMENSIONS[k]) == s
    ensures WeightedTotal(values, DIMENSIONS) == s
  {
    WeightsSumTo100();
    WeightedTotalOfEqualScores(values, DIMENSIONS, s);
  }

  /** The five bands, left-inclusive: a total exactly on 30, 50, 70 or 90 goes to the upper band. */
  lemma StatusBands(total: real)
    ensures StatusFor(total) == SangatTertinggal <==> total < 30.0
    ensures StatusFor(total) == Tertinggal <==> 30.0 <= total < 50.0
    ensures StatusFor(total) == Berkembang <==> 50.0 <= total < 70.0
    ensures StatusFor(total) == Maju <==> 70.0 <= total < 90.0
    ensures StatusFor(total) == Mandiri <==> 90.0 <= total
  {
  }

  /** A higher total never gives a lower status. */
  lemma StatusMonotone(a: real, b: real)
    requires a <= b
    ensures StatusRank(StatusFor(a)) <= StatusRank(StatusFor(b))
  {
  }

  function StatusRank(s: Status): nat {
    match s
    case SangatTertinggal => 0
    case Tertinggal => 1
    case Berkembang => 2
    case Maju => 3
    case Mandiri => 4
  }

  /**
   * The status is decided on the unrounded total while the stored total is
   * rounded to two decimals, so they disagree only for a total less than
   * 0.005 below a threshold; 29.996 is stored as 30.00 beside "Sangat Tertinggal".
   */
  lemma StatusOfRoundedTotal(total: real)
    ensures StatusFor(ToFixed(total, 2)) != StatusFor(total) ==>
      (29.995 <= total < 30.0) || (49.995 <= total < 50.0) || (69.995 <= total < 70.0) || (89.995 <= total < 90.0)
    ensures ToFixed(29.996, 2) == 30.0 && StatusFor(29.996) == SangatTertinggal && StatusFor(30.0) == Tertinggal
  {
    ToFixed2Error(total);
    var t := 29.996;
    assert Pow10(2) == 100;
    assert (t * 100.0 + 0.5).Floor == 3000;
  }

  /** A value whose code starts with anything but '1'..'6' changes neither the record nor the total. */
  lemma ForeignCodeIgnored(values: seq<AssessmentValue>, extra: AssessmentValue)
    requires extra.indicatorCode == [] || !('1' <= extra.indicatorCode[0] <= '6')
    ensures ScoreMap(values + [extra], DIMENSIONS) == ScoreMap(values, DIMENSIONS)
    ensures WeightedTotal(values + [extra], DIMENSIONS) == WeightedTotal(values, DIMENSIONS)
  {
    PrefixesDisjoint(extra.indicatorCode);
    forall k | 0 <= k < |DIMENSIONS|
      ensures DimensionScore(values + [extra], DIMENSIONS[k]) == DimensionScore(values, DIMENSIONS[k])
    {
      MatchingValuesAppend(values, extra, DIMENSIONS[k].prefix);
      assert MatchingValues(values, DIMENSIONS[k].prefix) + [] == MatchingValues(values, DIMENSIONS[k].prefix);
    }
    ForeignCodeIgnoredPrefix(values, extra, DIMENSIONS);
  }

  lemma {:induction false} ForeignCodeIgnoredPrefix(values: seq<AssessmentValue>, extra: AssessmentValue, dims: seq<Dimension>)
    requires forall k :: 0 <= k < |dims| ==> DimensionScore(values + [extra], dims[k]) == DimensionScore(values, dims[k])
    ensures ScoreMap(values + [extra], dims) == ScoreMap(values, dims)
    ensures WeightedTotal(values + [extra], dims) == WeightedTotal(values, dims)
  {
    if dims != [] {
      ForeignCodeIgnoredPrefix(values, extra, dims[..|dims| - 1]);
    }
  }

  // ---------------------------------------------------------------------
  // Worked cases
  // ---------------------------------------------------------------------

  lemma DimensionSlices()
    ensures DIMENSIONS[..1][..0] == [] && DIMENSIONS[..2][..1] == DIMENSIONS[..1]
    ensures DIMENSIONS[..3][..2] == DIMENSIONS[..2] && DIMENSIONS[..4][..3] == DIMENSIONS[..3]
    ensures DIMENSIONS[..5][..4] == DIMENSIONS[..4] && DIMENSIONS[..6][..5] == DIMENSIONS[..5]
    ensures DIMENSIONS[..6] == DIMENSIONS
  {
  }

  /** No values at all: every score 0, total 0, "Sangat Tertinggal". */
  lemma NoValuesScenario()
    ensures forall k :: 0 <= k < |DIMENSIONS| ==>
      DIMENSIONS[k].name in ScoreMap([], DIMENSIONS) && ScoreMap([], DIMENSIONS)[DIMENSIONS[k].name] == 0.0
    ensures WeightedTotal([], DIMENSIONS) == 0.0
    ensures StatusFor(WeightedTotal([], DIMENSIONS)) == SangatTertinggal
  {
    forall k | 0 <= k < |DIMENSIONS|
      ensures DimensionScore([], DIMENSIONS[k]) == 0.0
      ensures DIMENSIONS[k].name in ScoreMap([], DIMENSIONS) && ScoreMap([], DIMENSIONS)[DIMENSIONS[k].name] == 0.0
    {
      EmptyDimensionScoresZero([], DIMENSIONS[k]);
      ScoreMapAt([], k);
    }
    TotalOfEqualScores([], 0.0);
  }

  /** A single value {"3.1": 3}: Ekonomi 60, every other dimension 0, total 15.12, "Sangat Tertinggal". */
  lemma SingleEconomyValueScenario(assessmentId: int)
    ensures var values := [AssessmentValue(assessmentId, "3.1", 3)];
      && ScoreMap(values, DIMENSIONS) == map["Layanan Dasar" := 0.0, "Sosial" := 0.0, "Ekonomi" := 60.0,
                                             "Lingkungan" := 0.0, "Aksesibilitas" := 0.0, "Tata Kelola" := 0.0]
      && WeightedTotal(values, DIMENSIONS) == 15.12
      && StatusFor(WeightedTotal(values, DIMENSIONS)) == SangatTertinggal
  {
    var values := [AssessmentValue(assessmentId, "3.1", 3)];
    assert "3.1"[..1] == "3";
    assert MatchingValues(values, "3") == values;
    assert MatchingValues(values, "1") == [] && MatchingValues(values, "2") == [];
    assert MatchingValues(values, "4") == [] && MatchingValues(values, "5") == [] && MatchingValues(values, "6") == [];
    assert DIMENSIONS[2].prefix == "3" && SumValues(values) == 3;
    assert DimensionScore(values, DIMENSIONS[2]) == 60.0;
    ScoreMapAt(values, 0);
    ScoreMapAt(values, 1);
    ScoreMapAt(values, 2);
    ScoreMapAt(values, 3);
    ScoreMapAt(values, 4);
    ScoreMapAt(values, 5);
    ScoreMapHasAllSixNames(values);
    DimensionSlices();
    assert WeightedTotal(values, DIMENSIONS[..1]) == 0.0;
    assert WeightedTotal(values, DIMENSIONS[..2]) == 0.0;
    assert WeightedTotal(values, DIMENSIONS[..3]) == 15.12;
    assert WeightedTotal(values, DIMENSIONS[..4]) == 15.12;
    assert WeightedTotal(values, DIMENSIONS[..5]) == 15.12;
  }

  /**
   * Every dimension has at least one value and every value is 4: each
   * dimension scores 80, the total is 80 and the status is "Maju".
   */
  lemma AllFoursScenario(values: seq<AssessmentValue>)
    requires forall x :: x in values ==> x.value == 4
    requires forall k :: 0 <= k < |DIMENSIONS| ==> MatchingValues(values, DIMENSIONS[k].prefix) != []
    ensures forall k :: 0 <= k < |DIMENSIONS| ==>
      DIMENSIONS[k].name in ScoreMap(values, DIMENSIONS) && ScoreMap(values, DIMENSIONS)[DIMENSIONS[k].name] == 80.0
    ensures WeightedTotal(values, DIMENSIONS) == 80.0
    ensures StatusFor(WeightedTotal(values, DIMENSIONS)) == Maju
  {
    forall k | 0 <= k < |DIMENSIONS|
      ensures DimensionScore(values, DIMENSIONS[k]) == 80.0
      ensures DIMENSIONS[k].name in ScoreMap(values, DIMENSIONS) && ScoreMap(values, DIMENSIONS)[DIMENSIONS[k].name] == 80.0
    {
      UniformDimensionScore(values, DIMENSIONS[k], 4);
      ScoreMapAt(values, k);
    }
    TotalOfEqualScores(values, 80.0);
  }
}
