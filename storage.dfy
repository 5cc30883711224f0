/**
 * The storage layer: the village, assessment and assessment-value tables as
 * in-memory sequences of rows, the assessment queries, the value upsert and
 * the cascading delete.
 */
module Storage {
  import opened Wrappers
  import opened Schema
  import opened Seqs

  /** One element of the `values` argument of `bulkUpdateAssessmentValues`. */
  datatype ValueInput = ValueInput(indicatorCode: string, value: int)

  // ---------------------------------------------------------------------
  // Value rows keyed by (assessmentId, indicatorCode)
  // ---------------------------------------------------------------------

  predicate HasKey(row: AssessmentValue, assessmentId: int, code: string) {
    row.assessmentId == assessmentId && row.indicatorCode == code
  }

  function FindFrom(rows: seq<AssessmentValue>, assessmentId: int, code: string, k: nat): (r: Option<nat>)
    requires k <= |rows|
    ensures r.Some? ==> k <= r.value < |rows| && HasKey(rows[r.value], assessmentId, code)
    ensures r.Some? ==> forall j :: k <= j < r.value ==> !HasKey(rows[j], assessmentId, code)
    ensures r.None? ==> forall j :: k <= j < |rows| ==> !HasKey(rows[j], assessmentId, code)
    decreases |rows| - k
  {
    if k == |rows| then None
    else if HasKey(rows[k], assessmentId, code) then Some(k)
    else FindFrom(rows, assessmentId, code, k + 1)
  }

  /** The position of the first row with this key: `existing[0]` of the select in the upsert. */
  function FindRow(rows: seq<AssessmentValue>, assessmentId: int, code: string): (r: Option<nat>)
    ensures r.Some? ==> r.value < |rows| && HasKey(rows[r.value], assessmentId, code)
    ensures r.Some? ==> forall j :: 0 <= j < r.value ==> !HasKey(rows[j], assessmentId, code)
    ensures r.None? ==> forall j :: 0 <= j < |rows| ==> !HasKey(rows[j], assessmentId, code)
  {
    FindFrom(rows, assessmentId, code, 0)
  }

  /** One step of the upsert loop: overwrite the first row with the key, or append a new row. */
  function Upsert(rows: seq<AssessmentValue>, assessmentId: int, item: ValueInput): seq<AssessmentValue> {
    match FindRow(rows, assessmentId, item.indicatorCode)
    case Some(i) => rows[i := rows[i].(value := item.value)]
    case None => rows + [AssessmentValue(assessmentId, item.indicatorCode, item.value)]
  }

  /** The whole upsert loop, one input pair after the other. */
  function UpsertAll(rows: seq<AssessmentValue>, assessmentId: int, items: seq<ValueInput>): seq<AssessmentValue>
    decreases |items|
  {
    if items == [] then rows
    else UpsertAll(Upsert(rows, assessmentId, items[0]), assessmentId, items[1..])
  }

  /** The indicator codes that occur in an input. */
  function Codes(items: seq<ValueInput>): set<string> {
    set k | 0 <= k < |items| :: items[k].indicatorCode
  }

  lemma CodesCons(items: seq<ValueInput>)
    requires items != []
    ensures Codes(items) == {items[0].indicatorCode} + Codes(items[1..])
  {
    forall c | c in Codes(items) ensures c in {items[0].indicatorCode} + Codes(items[1..]) {
      var k :| 0 <= k < |items| && items[k].indicatorCode == c;
      if k > 0 { assert items[1..][k - 1] == items[k]; }
    }
    forall c | c in Codes(items[1..]) ensures c in Codes(items) {
      var k :| 0 <= k < |items[1..]| && items[1..][k].indicatorCode == c;
      assert items[k + 1] == items[1..][k];
    }
  }

  /** The value of the last input pair with this code. */
  function LastValue(items: seq<ValueInput>, code: string): int
    requires code in Codes(items)
    decreases |items|
  {
    CodesCons(items);
    if code in Codes(items[1..]) then LastValue(items[1..], code) else items[0].value
  }

  /** `LastValue` is the value of an occurrence of the code after which the code does not occur again. */
  lemma {:induction false} LastValueIsLastOccurrence(items: seq<ValueInput>, code: string)
    requires code in Codes(items)
    ensures exists k :: 0 <= k < |items| && items[k].indicatorCode == code && items[k].value == LastValue(items, code)
                        && forall m :: k < m < |items| ==> items[m].indicatorCode != code
    decreases |items|
  {
    CodesCons(items);
    if code in Codes(items[1..]) {
      LastValueIsLastOccurrence(items[1..], code);
      var k :| 0 <= k < |items[1..]| && items[1..][k].indicatorCode == code && items[1..][k].value == LastValue(items[1..], code)
               && forall m :: k < m < |items[1..]| ==> items[1..][m].indicatorCode != code;
      assert items[k + 1] == items[1..][k];
      forall m | k + 1 < m < |items| ensures items[m].indicatorCode != code {
        assert items[m] == items[1..][m - 1];
      }
    } else {
      forall m | 0 < m < |items| ensures items[m].indicatorCode != code {
        assert items[m] == items[1..][m - 1];
      }
    }
  }

  /** No two rows share an (assessmentId, indicatorCode) key. */
  predicate KeysUnique(rows: seq<AssessmentValue>) {
    forall i, j :: 0 <= i < j < |rows| ==> !HasKey(rows[j], rows[i].assessmentId, rows[i].indicatorCode)
  }

  /** Two tables of the same length whose rows carry the same keys position by position. */
  predicate SameKeys(a: seq<AssessmentValue>, b: seq<AssessmentValue>) {
    |a| == |b| &&
    forall j :: 0 <= j < |a| ==> a[j].assessmentId == b[j].assessmentId && a[j].indicatorCode == b[j].indicatorCode
  }

  lemma SameKeysFindRow(a: seq<AssessmentValue>, b: seq<AssessmentValue>, assessmentId: int, code: string)
    requires SameKeys(a, b)
    ensures FindRow(a, assessmentId, code) == FindRow(b, assessmentId, code)
  {
    var fa, fb := FindRow(a, assessmentId, code), FindRow(b, assessmentId, code);
    if fa.Some? { assert HasKey(b[fa.value], assessmentId, code); }
    if fb.Some? { assert HasKey(a[fb.value], assessmentId, code); }
  }

  /** After one upsert step the key is found, and its first row holds the new value. */
  lemma UpsertFinds(rows: seq<AssessmentValue>, assessmentId: int, item: ValueInput)
    ensures var r := Upsert(rows, assessmentId, item);
      FindRow(r, assessmentId, item.indicatorCode).Some? &&
      r[FindRow(r, assessmentId, item.indicatorCode).value].value == item.value
  {
    var r := Upsert(rows, assessmentId, item);
    match FindRow(rows, assessmentId, item.indicatorCode)
    case Some(i) =>
      SameKeysFindRow(rows, r, assessmentId, item.indicatorCode);
    case None =>
      assert HasKey(r[|rows|], assessmentId, item.indicatorCode);
  }

  /** The upsert never duplicates a key: a table with unique keys keeps them unique. */
  lemma {:induction false} UpsertAllKeepsKeysUnique(rows: seq<AssessmentValue>, assessmentId: int, items: seq<ValueInput>)
    requires KeysUnique(rows)
    ensures KeysUnique(UpsertAll(rows, assessmentId, items))
    decreases |items|
  {
    if items != [] {
      var next := Upsert(rows, assessmentId, items[0]);
      assert KeysUnique(next) by {
        match FindRow(rows, assessmentId, items[0].indicatorCode)
        case Some(i) =>
          assert SameKeys(rows, next);
        case None =>
      }
      UpsertAllKeepsKeysUnique(next, assessmentId, items[1..]);
    }
  }

  /**
   * What the upsert leaves alone: existing rows keep their position and key,
   * rows of other assessments and rows whose code is not in the input are
   * unchanged, and every added row belongs to this assessment and to a code of the input.
   */
  lemma {:induction false} UpsertAllFrame(rows: seq<AssessmentValue>, assessmentId: int, items: seq<ValueInput>)
    ensures var r := UpsertAll(rows, assessmentId, items);
      && |rows| <= |r|
      && (forall j :: 0 <= j < |rows| ==>
            r[j].assessmentId == rows[j].assessmentId && r[j].indicatorCode == rows[j].indicatorCode)
      && (forall j :: 0 <= j < |rows| && (rows[j].assessmentId != assessmentId || rows[j].indicatorCode !in Codes(items)) ==>
            r[j] == rows[j])
      && (forall j :: |rows| <= j < |r| ==> r[j].assessmentId == assessmentId && r[j].indicatorCode in Codes(items))
    decreases |items|
  {
    if items != [] {
      var x := items[0];
      CodesCons(items);
      var next := Upsert(rows, assessmentId, x);
      UpsertAllFrame(next, assessmentId, items[1..]);
      match FindRow(rows, assessmentId, x.indicatorCode)
      case Some(i) =>
      case None =>
    }
  }

  /** After the upsert, each input code's first row of this assessment holds the last value given for it. */
  lemma {:induction false} UpsertAllLastWins(rows: seq<AssessmentValue>, assessmentId: int, items: seq<ValueInput>, code: string)
    requires code in Codes(items)
    ensures var r := UpsertAll(rows, assessmentId, items);
      FindRow(r, assessmentId, code).Some? &&
      r[FindRow(r, assessmentId, code).value].value == LastValue(items, code)
    decreases |items|
  {
    CodesCons(items);
    var next := Upsert(rows, assessmentId, items[0]);
    if code in Codes(items[1..]) {
      UpsertAllLastWins(next, assessmentId, items[1..], code);
    } else {
      UpsertFinds(rows, assessmentId, items[0]);
      var i := FindRow(next, assessmentId, code).value;
      UpsertAllFrame(next, assessmentId, items[1..]);
      var r := UpsertAll(next, assessmentId, items[1..]);
      assert HasKey(r[i], assessmentId, code);
      assert forall j :: 0 <= j < i ==> !HasKey(r[j], assessmentId, code);
    }
  }

  /** `rows` with the first row of every input code overwritten by that code's last value. */
  function Overwritten(rows: seq<AssessmentValue>, assessmentId: int, items: seq<ValueInput>): (r: seq<AssessmentValue>)
    ensures |r| == |rows|
  {
    seq(|rows|, j requires 0 <= j < |rows| =>
      if rows[j].assessmentId == assessmentId && rows[j].indicatorCode in Codes(items)
         && FindRow(rows, assessmentId, rows[j].indicatorCode) == Some(j)
      then rows[j].(value := LastValue(items, rows[j].indicatorCode))
      else rows[j])
  }

  /** When every input code already has a row, the upsert only overwrites values in place. */
  lemma {:induction false} UpsertAllOnPresentKeys(rows: seq<AssessmentValue>, assessmentId: int, items: seq<ValueInput>)
    requires forall c :: c in Codes(items) ==> FindRow(rows, assessmentId, c).Some?
    ensures UpsertAll(rows, assessmentId, items) == Overwritten(rows, assessmentId, items)
    decreases |items|
  {
    if items == [] {
      assert Overwritten(rows, assessmentId, items) == rows;
    } else {
      var x := items[0];
      var rest := items[1..];
      CodesCons(items);
      var i := FindRow(rows, assessmentId, x.indicatorCode).value;
      var next := Upsert(rows, assessmentId, x);
      assert next == rows[i := rows[i].(value := x.value)];
      assert SameKeys(rows, next);
      forall c ensures FindRow(next, assessmentId, c) == FindRow(rows, assessmentId, c) {
        SameKeysFindRow(rows, next, assessmentId, c);
      }
      UpsertAllOnPresentKeys(next, assessmentId, rest);
      var lhs := Overwritten(next, assessmentId, rest);
      var rhs := Overwritten(rows, assessmentId, items);
      forall j | 0 <= j < |rows| ensures lhs[j] == rhs[j] {
        var c := rows[j].indicatorCode;
        if rows[j].assessmentId == assessmentId && c in Codes(rest) && FindRow(rows, assessmentId, c) == Some(j) {
          assert LastValue(items, c) == LastValue(rest, c);
        } else if j == i {
          assert c == x.indicatorCode;
        }
      }
    }
  }

  /** Applying the same input twice leaves the same table as applying it once. */
  lemma UpsertAllIdempotent(rows: seq<AssessmentValue>, assessmentId: int, items: seq<ValueInput>)
    ensures UpsertAll(UpsertAll(rows, assessmentId, items), assessmentId, items) == UpsertAll(rows, assessmentId, items)
  {
    var once := UpsertAll(rows, assessmentId, items);
    forall c | c in Codes(items)
      ensures FindRow(once, assessmentId, c).Some?
      ensures once[FindRow(once, assessmentId, c).value].value == LastValue(items, c)
    {
      UpsertAllLastWins(rows, assessmentId, items, c);
    }
    UpsertAllOnPresentKeys(once, assessmentId, items);
    var twice := Overwritten(once, assessmentId, items);
    forall j | 0 <= j < |once| ensures twice[j] == once[j] {
    }
  }

  // ---------------------------------------------------------------------
  // Assessment queries
  // ---------------------------------------------------------------------

  /** The village with this primary key. */
  function FindVillage(villages: seq<Village>, id: int): (r: Option<Village>)
    ensures r.Some? ==> r.value in villages && r.value.id == id
    ensures r.None? ==> forall v :: v in villages ==> v.id != id
  {
    if villages == [] then None
    else if villages[0].id == id then Some(villages[0])
    else FindVillage(villages[1..], id)
  }

  /** `assessments INNER JOIN villages ON assessments.village_id = villages.id`, in table order. */
  function Join(assessments: seq<Assessment>, villages: seq<Village>): (r: seq<AssessmentWithVillage>)
    ensures forall x :: x in r ==> x.assessment in assessments && x.village.Some?
                                   && x.village == FindVillage(villages, x.assessment.villageId)
    ensures forall a :: a in assessments && FindVillage(villages, a.villageId).Some? ==>
                          AssessmentWithVillage(a, FindVillage(villages, a.villageId)) in r
  {
    if assessments == [] then []
    else
      var a := assessments[0];
      assert forall b :: b in assessments ==> b == a || b in assessments[1..];
      var head := match FindVillage(villages, a.villageId)
        case Some(v) => [AssessmentWithVillage(a, Some(v))]
        case None => [];
      head + Join(assessments[1..], villages)
  }

  /** JavaScript truthiness of an optional number: present and not 0. */
  predicate Truthy(x: Option<int>) {
    x.Some? && x.value != 0
  }

  /** The `where` conditions of `getAssessments`: each filter applies only when its argument is truthy. */
  predicate Selected(x: AssessmentWithVillage, villageId: Option<int>, year: Option<int>) {
    (Truthy(villageId) ==> x.assessment.villageId == villageId.value) &&
    (Truthy(year) ==> x.assessment.year == year.value)
  }

  predicate SortedByYearDesc(xs: seq<AssessmentWithVillage>) {
    forall i, j :: 0 <= i < j < |xs| ==> xs[i].assessment.year >= xs[j].assessment.year
  }

  /** Place `x` after every element whose year is at least its own. */
  function InsertByYear(x: AssessmentWithVillage, sorted: seq<AssessmentWithVillage>): (r: seq<AssessmentWithVillage>)
    requires SortedByYearDesc(sorted)
    ensures SortedByYearDesc(r)
    ensures multiset(r) == multiset(sorted) + multiset{x}
  {
    if sorted == [] || sorted[0].assessment.year < x.assessment.year then [x] + sorted
    else
      assert sorted == [sorted[0]] + sorted[1..];
      var tail := InsertByYear(x, sorted[1..]);
      TailBelowHead(x, sorted, tail);
      ConsSorted(sorted[0], tail);
      [sorted[0]] + tail
  }

  lemma ConsSorted(head: AssessmentWithVillage, tail: seq<AssessmentWithVillage>)
    requires SortedByYearDesc(tail)
    requires forall k :: 0 <= k < |tail| ==> tail[k].assessment.year <= head.assessment.year
    ensures SortedByYearDesc([head] + tail)
  {
    var r := [head] + tail;
    assert forall j :: 0 < j < |r| ==> r[j] == tail[j - 1];
  }

  /** Every element of the insertion into the tail is no later than the head. */
  lemma TailBelowHead(x: AssessmentWithVillage, sorted: seq<AssessmentWithVillage>, tail: seq<AssessmentWithVillage>)
    requires SortedByYearDesc(sorted) && sorted != [] && x.assessment.year <= sorted[0].assessment.year
    requires multiset(tail) == multiset(sorted[1..]) + multiset{x}
    ensures forall k :: 0 <= k < |tail| ==> tail[k].assessment.year <= sorted[0].assessment.year
  {
    forall k | 0 <= k < |tail| ensures tail[k].assessment.year <= sorted[0].assessment.year {
      var y := tail[k];
      assert y in multiset(tail);
      if y != x {
        assert y in multiset(sorted[1..]);
        var m :| 0 <= m < |sorted[1..]| && sorted[1..][m] == y;
        assert sorted[m + 1] == y;
      }
    }
  }

  /** `ORDER BY year DESC`; rows of the same year keep their table order. */
  function SortByYearDesc(xs: seq<AssessmentWithVillage>): (r: seq<AssessmentWithVillage>)
    ensures SortedByYearDesc(r)
    ensures multiset(r) == multiset(xs)
  {
    if xs == [] then []
    else
      assert xs == xs[..|xs| - 1] + [xs[|xs| - 1]];
      InsertByYear(xs[|xs| - 1], SortByYearDesc(xs[..|xs| - 1]))
  }

  /** The value rows of one assessment, in table order. */
  function ValuesOf(rows: seq<AssessmentValue>, assessmentId: int): seq<AssessmentValue> {
    Filter(rows, (r: AssessmentValue) => r.assessmentId == assessmentId)
  }

  /** The value table after deleting the rows of one assessment. */
  function ValuesNotOf(rows: seq<AssessmentValue>, assessmentId: int): seq<AssessmentValue> {
    Filter(rows, (r: AssessmentValue) => r.assessmentId != assessmentId)
  }

  /** The assessment table after deleting the assessment(s) with this id. */
  function AssessmentsNotWithId(assessments: seq<Assessment>, id: int): seq<Assessment> {
    Filter(assessments, (a: Assessment) => a.id != id)
  }

  /** The first row of a table with this id. */
  function FirstWithId(assessments: seq<Assessment>, id: int): (r: Option<Assessment>)
    ensures r.Some? ==> r.value in assessments && r.value.id == id
    ensures r.None? ==> forall a :: a in assessments ==> a.id != id
  {
    if assessments == [] then None
    else if assessments[0].id == id then Some(assessments[0])
    else FirstWithId(assessments[1..], id)
  }

  /** The first joined row whose assessment has this id. */
  function FirstJoinedWithId(joined: seq<AssessmentWithVillage>, id: int): (r: Option<AssessmentWithVillage>)
    ensures r.Some? ==> r.value in joined && r.value.assessment.id == id
    ensures r.None? ==> forall x :: x in joined ==> x.assessment.id != id
  {
    if joined == [] then None
    else if joined[0].assessment.id == id then Some(joined[0])
    else FirstJoinedWithId(joined[1..], id)
  }

  /** `updateAssessment`: every row with this id gets the three derived fields. */
  function SetDerived(assessments: seq<Assessment>, id: int, status: string, totalScore: real,
                      dimensionScores: map<string, real>): (r: seq<Assessment>)
    ensures |r| == |assessments|
  {
    seq(|assessments|, i requires 0 <= i < |assessments| =>
      if assessments[i].id == id
      then assessments[i].(status := Some(status), totalScore := Some(totalScore), dimensionScores := Some(dimensionScores))
      else assessments[i])
  }

  /** Writing the same derived fields again changes nothing. */
  lemma SetDerivedIdempotent(assessments: seq<Assessment>, id: int, status: string, totalScore: real,
                             dimensionScores: map<string, real>)
    ensures var once := SetDerived(assessments, id, status, totalScore, dimensionScores);
      SetDerived(once, id, status, totalScore, dimensionScores) == once
  {
  }

  /** The database: three tables held as sequences of rows. */
  class Database {
    var villages: seq<Village>
    var assessments: seq<Assessment>
    var values: seq<AssessmentValue>

    constructor (villages: seq<Village>, assessments: seq<Assessment>, values: seq<AssessmentValue>)
      ensures this.villages == villages && this.assessments == assessments && this.values == values
    {
      this.villages := villages;
      this.assessments := assessments;
      this.values := values;
    }

    /**
     * `getAssessments(villageId, year)`: the assessments that have a village,
     * filtered by village and year when those arguments are truthy, newest year first.
     */
    function GetAssessments(villageId: Option<int>, year: Option<int>): (r: seq<AssessmentWithVillage>)
      reads this
      ensures SortedByYearDesc(r)
      ensures forall x :: x in r ==> Selected(x, villageId, year) && x.assessment in assessments && x.village.Some?
      ensures forall a :: (a in assessments && FindVillage(villages, a.villageId).Some?
                           && Selected(AssessmentWithVillage(a, FindVillage(villages, a.villageId)), villageId, year)) ==>
                          AssessmentWithVillage(a, FindVillage(villages, a.villageId)) in r
      ensures multiset(r) == multiset(Filter(Join(assessments, villages), x => Selected(x, villageId, year)))
    {
      var selected := Filter(Join(assessments, villages), x => Selected(x, villageId, year));
      var r := SortByYearDesc(selected);
      assert forall x :: x in r <==> x in selected by {
        forall x ensures x in r <==> x in selected {
          assert x in r <==> x in multiset(r);
        }
      }
      r
    }

    /**
     * `getAssessment(id)`: the first assessment with this id that has a
     * village, with that village and all of its value rows; `None` when there is none.
     */
    function GetAssessment(id: int): (r: Option<AssessmentDetail>)
      reads this
      ensures r.Some? ==> r.value.assessment in assessments && r.value.assessment.id == id
                          && Some(r.value.village) == FindVillage(villages, r.value.assessment.villageId)
                          && r.value.values == ValuesOf(values, id)
      ensures r.None? ==> forall a :: a in assessments && a.id == id ==> FindVillage(villages, a.villageId).None?
    {
      match FirstJoinedWithId(Join(assessments, villages), id)
      case None => None
      case Some(x) => Some(AssessmentDetail(x.assessment, x.village.value, ValuesOf(values, id)))
    }

    /** `updateAssessment(id, {...})` for the three derived fields; returns the first updated row. */
    method UpdateAssessment(id: int, status: string, totalScore: real, dimensionScores: map<string, real>)
      returns (updated: Option<Assessment>)
      modifies this
      ensures assessments == SetDerived(old(assessments), id, status, totalScore, dimensionScores)
      ensures villages == old(villages) && values == old(values)
      ensures updated == FirstWithId(assessments, id)
      ensures updated.Some? ==> updated.value.status == Some(status) && updated.value.totalScore == Some(totalScore)
                                && updated.value.dimensionScores == Some(dimensionScores)
    {
      assessments := SetDerived(assessments, id, status, totalScore, dimensionScores);
      updated := FirstWithId(assessments, id);
      if updated.Some? {
        var k :| 0 <= k < |assessments| && assessments[k] == updated.value;
      }
    }

    /**
     * `bulkUpdateAssessmentValues`: for each input pair in order, overwrite the
     * first row with the same (assessmentId, indicatorCode), or insert a new row.
     */
    method BulkUpdateAssessmentValues(assessmentId: int, items: seq<ValueInput>)
      modifies this
      ensures values == UpsertAll(old(values), assessmentId, items)
      ensures villages == old(villages) && assessments == old(assessments)
      ensures old(KeysUnique(values)) ==> KeysUnique(values)
    {
      var i := 0;
      while i < |items|
        invariant 0 <= i <= |items|
        invariant UpsertAll(values, assessmentId, items[i..]) == UpsertAll(old(values), assessmentId, items)
        invariant villages == old(villages) && assessments == old(assessments)
      {
        var item := items[i];
        assert items[i..][0] == item && items[i..][1..] == items[i + 1..];
        var existing := FindRow(values, assessmentId, item.indicatorCode);
        if existing.Some? {
          var k := existing.value;
          values := values[k := values[k].(value := item.value)];
        } else {
          values := values + [AssessmentValue(assessmentId, item.indicatorCode, item.value)];
        }
        i := i + 1;
      }
      assert items[i..] == [];
      if old(KeysUnique(values)) {
        UpsertAllKeepsKeysUnique(old(values), assessmentId, items);
      }
    }

    /** `deleteAssessment(id)`: first the assessment's value rows, then the assessment itself. */
    method DeleteAssessment(id: int)
      modifies this
      ensures values == ValuesNotOf(old(values), id)
      ensures assessments == AssessmentsNotWithId(old(assessments), id)
      ensures villages == old(villages)
      ensures forall r :: r in values ==> r.assessmentId != id
      ensures GetAssessment(id).None?
    {
      values := ValuesNotOf(values, id);
      assessments := AssessmentsNotWithId(assessments, id);
    }
  }
}
