/**
 * The assessment detail page: the questionnaire form that holds one score
 * per indicator code, its loading from the stored rows, the save payload,
 * the progress of the current dimension tab, the Next/Finish buttons, and
 * the Calculate action that saves before it asks the server for the scores.
 */
module DetailPage {
  import opened Wrappers
  import opened Text
  import opened Schema
  import opened Seqs
  import opened Storage
  import Indicators
  import SharedRoutes
  import ServerRoutes

  // ---------------------------------------------------------------------
  // The route
  // ---------------------------------------------------------------------

  /** The assessment id of the route: a missing or empty parameter reads as "0", anything else is parsed. */
  function RouteId(param: Option<string>): (r: Option<int>)
    ensures param.None? || param == Some("") ==> r == Some(0)
  {
    NatToStringRoundTrip(0);
    ParseInt(if param.None? || param.value == "" then NatToString(0) else param.value)
  }

  /** The page of assessment `n` is reached at `/assessments/<n>` and reads `n` back. */
  lemma RouteIdOfNat(n: nat)
    ensures RouteId(Some(NatToString(n))) == Some(n)
  {
    NatToStringRoundTrip(n);
  }

  // ---------------------------------------------------------------------
  // The form values
  // ---------------------------------------------------------------------

  /**
   * The form state `Record<indicatorCode, number>`, entries in insertion
   * order (indicator codes are not array indices, so that is the order
   * `Object.entries` gives). A value `None` stands for `NaN`.
   */
  type FormValues = seq<(string, Option<int>)>

  predicate KeysDistinct(vals: FormValues) {
    forall i, j :: 0 <= i < j < |vals| ==> vals[i].0 != vals[j].0
  }

  function Keys(vals: FormValues): set<string> {
    set i | 0 <= i < |vals| :: vals[i].0
  }

  /** The position of the entry with this key. */
  function FindKey(vals: FormValues, code: string): (r: Option<nat>)
    ensures r.Some? ==> r.value < |vals| && vals[r.value].0 == code
                        && forall j :: 0 <= j < r.value ==> vals[j].0 != code
    ensures r.None? ==> forall j :: 0 <= j < |vals| ==> vals[j].0 != code
  {
    if vals == [] then None
    else if vals[0].0 == code then Some(0)
    else match FindKey(vals[1..], code)
      case None => None
      case Some(i) => Some(i + 1)
  }

  /** `values[code]`: `None` both for an absent key and for `NaN`. */
  function Get(vals: FormValues, code: string): Option<int> {
    match FindKey(vals, code)
    case None => None
    case Some(i) => vals[i].1
  }

  /** The indicator counts as answered when its value is truthy. */
  predicate Filled(vals: FormValues, code: string) {
    Truthy(Get(vals, code))
  }

  /** Writing one key of the form state: an existing key keeps its place, a new key goes last. */
  function Put(vals: FormValues, code: string, v: Option<int>): FormValues {
    match FindKey(vals, code)
    case Some(i) => vals[i := (code, v)]
    case None => vals + [(code, v)]
  }

  /** Reading after writing: the written key holds the new value, every other key keeps its value. */
  lemma PutGet(vals: FormValues, code: string, v: Option<int>)
    ensures Get(Put(vals, code, v), code) == v
    ensures forall c :: c != code ==> Get(Put(vals, code, v), c) == Get(vals, c)
  {
    var r := Put(vals, code, v);
    match FindKey(vals, code)
    case Some(i) =>
      forall c ensures FindKey(r, c) == FindKey(vals, c) {
        SamePositionsFind(vals, r, c);
      }
    case None =>
      forall c ensures FindKey(r, c) == if FindKey(vals, c).None? && c == code then Some(|vals|) else FindKey(vals, c) {
        FindKeyAppend(vals, (code, v), c);
      }
  }

  lemma SamePositionsFind(a: FormValues, b: FormValues, c: string)
    requires |a| == |b| && forall i :: 0 <= i < |a| ==> a[i].0 == b[i].0
    ensures FindKey(a, c) == FindKey(b, c)
  {
    var fa, fb := FindKey(a, c), FindKey(b, c);
    if fa.Some? { assert b[fa.value].0 == c; }
    if fb.Some? { assert a[fb.value].0 == c; }
  }

  lemma FindKeyAppend(vals: FormValues, e: (string, Option<int>), c: string)
    ensures FindKey(vals + [e], c) ==
      if FindKey(vals, c).Some? then FindKey(vals, c) else if e.0 == c then Some(|vals|) else None
  {
    var r := vals + [e];
    var fa, fb := FindKey(vals, c), FindKey(r, c);
    if fa.Some? { assert r[fa.value].0 == c; }
    if fb.Some? && fb.value < |vals| { assert vals[fb.value].0 == c; }
    if fa.None? && e.0 == c { assert r[|vals|].0 == c; }
  }

  /** Writing adds the key and keeps the keys distinct. */
  lemma PutKeys(vals: FormValues, code: string, v: Option<int>)
    ensures Keys(Put(vals, code, v)) == Keys(vals) + {code}
    ensures KeysDistinct(vals) ==> KeysDistinct(Put(vals, code, v))
    ensures |Put(vals, code, v)| == if code in Keys(vals) then |vals| else |vals| + 1
  {
    var r := Put(vals, code, v);
    var f := FindKey(vals, code);
    if f.Some? {
      assert r[f.value].0 == code;
      assert forall i :: 0 <= i < |r| ==> r[i].0 == vals[i].0;
    } else {
      assert r[|vals|].0 == code;
      assert forall i :: 0 <= i < |vals| ==> r[i] == vals[i];
      assert code !in Keys(vals);
    }
  }

  /** `handleValueChange(code, val)`: the radio value is parsed and stored under the code alone. */
  function ValueChange(vals: FormValues, code: string, val: string): (r: FormValues)
    ensures Get(r, code) == ParseInt(val)
    ensures forall c :: c != code ==> Get(r, c) == Get(vals, c)
  {
    PutGet(vals, code, ParseInt(val));
    Put(vals, code, ParseInt(val))
  }

  /** Picking one of the five radio buttons answers the indicator with that score. */
  lemma RadioAnswers(vals: FormValues, code: string, v: nat)
    requires 1 <= v <= 5
    ensures Get(ValueChange(vals, code, NatToString(v)), code) == Some(v)
    ensures Filled(ValueChange(vals, code, NatToString(v)), code)
  {
    NatToStringRoundTrip(v);
  }

  // ---------------------------------------------------------------------
  // Loading
  // ---------------------------------------------------------------------

  /** The map the load effect builds: each row written in turn. */
  function Loaded(rows: seq<AssessmentValue>): FormValues
    decreases |rows|
  {
    if rows == [] then []
    else
      var last := rows[|rows| - 1];
      Put(Loaded(rows[..|rows| - 1]), last.indicatorCode, Some(last.value))
  }

  /** The load effect's `forEach` over the fetched rows. */
  method LoadValues(rows: seq<AssessmentValue>) returns (vals: FormValues)
    ensures vals == Loaded(rows)
  {
    vals := [];
    for i := 0 to |rows|
      invariant vals == Loaded(rows[..i])
    {
      assert rows[..i + 1][..i] == rows[..i];
      vals := Put(vals, rows[i].indicatorCode, Some(rows[i].value));
    }
    assert rows[..|rows|] == rows;
  }

  /** The loaded form answers exactly the codes that have a row. */
  lemma {:induction false} LoadedAbsent(rows: seq<AssessmentValue>, c: string)
    ensures Get(Loaded(rows), c).None? <==> forall k :: 0 <= k < |rows| ==> rows[k].indicatorCode != c
    decreases |rows|
  {
    if rows != [] {
      var init := rows[..|rows| - 1];
      var last := rows[|rows| - 1];
      LoadedAbsent(init, c);
      PutGet(Loaded(init), last.indicatorCode, Some(last.value));
      if last.indicatorCode != c {
        assert forall k :: 0 <= k < |init| ==> init[k] == rows[k];
      }
    }
  }

  /** A code with several rows takes the value of its last row. */
  lemma {:induction false} LoadedLastWins(rows: seq<AssessmentValue>, c: string, k: nat)
    requires k < |rows| && rows[k].indicatorCode == c
    requires forall m :: k < m < |rows| ==> rows[m].indicatorCode != c
    ensures Get(Loaded(rows), c) == Some(rows[k].value)
    decreases |rows|
  {
    var init := rows[..|rows| - 1];
    var last := rows[|rows| - 1];
    PutGet(Loaded(init), last.indicatorCode, Some(last.value));
    if k < |init| {
      assert init[k] == rows[k];
      forall m | k < m < |init| ensures init[m].indicatorCode != c {
        assert init[m] == rows[m];
      }
      LoadedLastWins(init, c, k);
    }
  }

  /** The loaded form has one entry per distinct code, never more entries than rows. */
  lemma {:induction false} LoadedKeys(rows: seq<AssessmentValue>)
    ensures KeysDistinct(Loaded(rows))
    ensures Keys(Loaded(rows)) == set k | 0 <= k < |rows| :: rows[k].indicatorCode
    ensures |Loaded(rows)| <= |rows|
    decreases |rows|
  {
    if rows != [] {
      var init := rows[..|rows| - 1];
      var last := rows[|rows| - 1];
      LoadedKeys(init);
      PutKeys(Loaded(init), last.indicatorCode, Some(last.value));
      var codes := set k | 0 <= k < |rows| :: rows[k].indicatorCode;
      var initCodes := set k | 0 <= k < |init| :: init[k].indicatorCode;
      assert codes == initCodes + {last.indicatorCode} by {
        forall c | c in codes ensures c in initCodes + {last.indicatorCode} {
          var k :| 0 <= k < |rows| && rows[k].indicatorCode == c;
          if k < |init| { assert init[k] == rows[k]; }
        }
        forall c | c in initCodes ensures c in codes {
          var k :| 0 <= k < |init| && init[k].indicatorCode == c;
          assert rows[k] == init[k];
        }
      }
    }
  }

  /** Stored rows with distinct codes load as one entry per row, in row order. */
  lemma {:induction false} LoadedDistinctRows(rows: seq<AssessmentValue>)
    requires forall i, j :: 0 <= i < j < |rows| ==> rows[i].indicatorCode != rows[j].indicatorCode
    ensures |Loaded(rows)| == |rows|
    ensures forall i :: 0 <= i < |rows| ==> Loaded(rows)[i] == (rows[i].indicatorCode, Some(rows[i].value))
    decreases |rows|
  {
    if rows != [] {
      var init := rows[..|rows| - 1];
      var last := rows[|rows| - 1];
      LoadedDistinctRows(init);
      assert FindKey(Loaded(init), last.indicatorCode).None? by {
        forall j | 0 <= j < |init| ensures Loaded(init)[j].0 != last.indicatorCode {
          assert init[j] == rows[j];
        }
      }
      forall i | 0 <= i < |init| ensures Loaded(rows)[i] == (rows[i].indicatorCode, Some(rows[i].value)) {
        assert init[i] == rows[i];
      }
    }
  }

  // ---------------------------------------------------------------------
  // Saving
  // ---------------------------------------------------------------------

  /** One element of the save payload; `None` is `NaN`. */
  datatype PayloadItem = PayloadItem(indicatorCode: string, value: Option<int>)

  /** The save payload: one item per form entry, in entry order. */
  function Payload(vals: FormValues): (r: seq<PayloadItem>)
    ensures |r| == |vals|
  {
    seq(|vals|, i requires 0 <= i < |vals| => PayloadItem(vals[i].0, vals[i].1))
  }

  /** The payload sends each key of the form once, with the value the form holds for it. */
  lemma PayloadCarriesForm(vals: FormValues, c: string)
    requires KeysDistinct(vals) && c in Keys(vals)
    ensures exists i :: 0 <= i < |vals| && Payload(vals)[i] == PayloadItem(c, Get(vals, c))
    ensures forall i, j :: (0 <= i < |vals| && 0 <= j < |vals| && Payload(vals)[i].indicatorCode == c
                            && Payload(vals)[j].indicatorCode == c) ==> i == j
  {
    var k := FindKey(vals, c).value;
    assert Payload(vals)[k] == PayloadItem(c, Get(vals, c));
  }

  /**
   * The body check of the values route: each value must be a number with
   * 1 <= value <= 5 (`NaN` is not a number there); `None` is a 400 answer.
   */
  function Validate(payload: seq<PayloadItem>): (r: Option<seq<ValueInput>>)
    ensures r.Some? <==> forall i :: 0 <= i < |payload| ==>
                           payload[i].value.Some? && SharedRoutes.ValueAccepted(payload[i].value.value as real)
    ensures r.Some? ==> |r.value| == |payload| && SharedRoutes.UpdateValuesAccepted(r.value)
                        && forall i :: 0 <= i < |payload| ==>
                             r.value[i].indicatorCode == payload[i].indicatorCode && Some(r.value[i].value) == payload[i].value
  {
    if forall i :: 0 <= i < |payload| ==>
         payload[i].value.Some? && SharedRoutes.ValueAccepted(payload[i].value.value as real)
    then
      var items := seq(|payload|, i requires 0 <= i < |payload| && payload[i].value.Some? =>
                         ValueInput(payload[i].indicatorCode, payload[i].value.value));
      assert forall x :: x in items ==> SharedRoutes.ValueAccepted(x.value as real);
      Some(items)
    else None
  }

  /** A form answered only through the radio buttons, or loaded from scores in range, passes the check. */
  lemma AnsweredFormAccepted(vals: FormValues)
    requires forall i :: 0 <= i < |vals| ==> vals[i].1.Some? && 1 <= vals[i].1.value <= 5
    ensures Validate(Payload(vals)).Some?
  {
  }

  /**
   * Saving stores the form: after the server's upsert of an accepted
   * payload, the first row of each form key holds the form's value.
   */
  lemma SaveStoresForm(rows: seq<AssessmentValue>, id: int, vals: FormValues, c: string)
    requires KeysDistinct(vals) && c in Keys(vals) && Validate(Payload(vals)).Some?
    ensures var stored := UpsertAll(rows, id, Validate(Payload(vals)).value);
      FindRow(stored, id, c).Some? && Some(stored[FindRow(stored, id, c).value].value) == Get(vals, c)
  {
    var items := Validate(Payload(vals)).value;
    var k := FindKey(vals, c).value;
    assert items[k].indicatorCode == c;
    assert c in Codes(items);
    UpsertAllLastWins(rows, id, items, c);
    LastValueIsLastOccurrence(items, c);
    var j :| 0 <= j < |items| && items[j].indicatorCode == c && items[j].value == LastValue(items, c)
             && forall m :: j < m < |items| ==> items[m].indicatorCode != c;
    assert vals[j].0 == c;
  }

  // ---------------------------------------------------------------------
  // Progress of the current tab
  // ---------------------------------------------------------------------

  /** The first catalog dimension whose id renders as the active tab. */
  function FindDimension(dims: seq<Indicators.Dimension>, tab: string): (r: Option<Indicators.Dimension>)
    ensures r.Some? ==> r.value in dims && IntToString(r.value.id) == tab
    ensures r.None? ==> forall d :: d in dims ==> IntToString(d.id) != tab
  {
    if dims == [] then None
    else if IntToString(dims[0].id) == tab then Some(dims[0])
    else FindDimension(dims[1..], tab)
  }

  /** `allIndicators`: the codes of the tab's dimension, none for an unknown tab. */
  function TabCodes(dims: seq<Indicators.Dimension>, tab: string): seq<string> {
    match FindDimension(dims, tab)
    case None => []
    case Some(d) => Indicators.Codes(d)
  }

  function FilledCount(vals: FormValues, codes: seq<string>): nat {
    Count(codes, c => Filled(vals, c))
  }

  /** The number of indicators of the tab, or 1 for a tab without any. */
  function TotalCount(codes: seq<string>): nat {
    if |codes| == 0 then 1 else |codes|
  }

  function Progress(vals: FormValues, codes: seq<string>): real {
    FilledCount(vals, codes) as real / TotalCount(codes) as real * 100.0
  }

  /** The bar never leaves 0..100, and it is full exactly when every indicator of the tab is answered. */
  lemma ProgressBounds(vals: FormValues, codes: seq<string>)
    ensures 0 <= FilledCount(vals, codes) <= TotalCount(codes) && TotalCount(codes) >= 1
    ensures 0.0 <= Progress(vals, codes) <= 100.0
    ensures Progress(vals, codes) == 100.0 <==> FilledCount(vals, codes) == TotalCount(codes)
  {
    PercentBounds(FilledCount(vals, codes), TotalCount(codes));
  }

  lemma PercentBounds(f: nat, t: nat)
    requires f <= t && t >= 1
    ensures 0.0 <= f as real / t as real * 100.0 <= 100.0
    ensures f as real / t as real * 100.0 == 100.0 <==> f == t
  {
    var q := f as real / t as real;
    assert q * t as real == f as real;
    if f != t {
      assert q != 1.0;
    }
  }

  /**
   * "All indicators in this dimension completed." is shown exactly when every
   * indicator of a non-empty tab is answered; otherwise `total - filled` remain.
   */
  lemma CompleteIff(vals: FormValues, codes: seq<string>)
    requires codes != []
    ensures FilledCount(vals, codes) == TotalCount(codes) <==> forall c :: c in codes ==> Filled(vals, c)
  {
    if forall c :: c in codes ==> Filled(vals, c) {
      FilterAllTrue(codes, c => Filled(vals, c));
    } else {
      var c :| c in codes && !Filled(vals, c);
      FilterDropsFailing(codes, c => Filled(vals, c), c);
    }
  }

  /** A tab that names no dimension shows 0 of 1 and an empty bar. */
  lemma UnknownTab(vals: FormValues, tab: string)
    requires forall d :: d in Indicators.DIMENSIONS ==> IntToString(d.id) != tab
    ensures FilledCount(vals, TabCodes(Indicators.DIMENSIONS, tab)) == 0
    ensures TotalCount(TabCodes(Indicators.DIMENSIONS, tab)) == 1
    ensures Progress(vals, TabCodes(Indicators.DIMENSIONS, tab)) == 0.0
  {
  }

  /** Tab `k` (1..6) shows the k-th dimension, with the catalog's count of indicators. */
  lemma TabShowsDimension(k: nat)
    requires 1 <= k <= 6
    ensures FindDimension(Indicators.DIMENSIONS, NatToString(k)) == Some(Indicators.DIMENSIONS[k - 1])
    ensures TotalCount(TabCodes(Indicators.DIMENSIONS, NatToString(k))) == Indicators.COUNTS[k - 1]
  {
    Indicators.CodesNumbered(k - 1);
    forall i | 0 <= i < |Indicators.DIMENSIONS| ensures Indicators.DIMENSIONS[i].id == i + 1 {
      Indicators.CodesNumbered(i);
    }
    FindNumberedDimension(Indicators.DIMENSIONS, k - 1);
  }

  /** In dimensions numbered 1, 2, ... in order, the tab "j+1" finds the j-th one. */
  lemma FindNumberedDimension(dims: seq<Indicators.Dimension>, j: nat)
    requires j < |dims| && forall i :: 0 <= i < |dims| ==> dims[i].id == i + 1
    ensures FindDimension(dims, NatToString(j + 1)) == Some(dims[j])
  {
    assert dims[j] in dims;
    var r := FindDimension(dims, NatToString(j + 1));
    var i :| 0 <= i < |dims| && dims[i] == r.value;
    IntToStringInjective(i + 1, j + 1);
  }

  // ---------------------------------------------------------------------
  // Tabs and buttons
  // ---------------------------------------------------------------------

  const FIRST_TAB := "1"

  /** The Next button is shown when the tab parses to a number below 6 (an unparsable tab shows none). */
  predicate ShowsNext(tab: string) {
    ParseInt(tab).Some? && ParseInt(tab).value < 6
  }

  /** The Finish button is shown on tab 6 only. */
  predicate ShowsFinish(tab: string) {
    ParseInt(tab) == Some(6)
  }

  /** The tab the Next button moves to: the parsed tab plus one, rendered again. */
  function NextTab(tab: string): (r: string)
    requires ShowsNext(tab)
  {
    IntToString(ParseInt(tab).value + 1)
  }

  /** No tab shows both Next and Finish. */
  lemma NextOrFinish(tab: string)
    ensures !(ShowsNext(tab) && ShowsFinish(tab))
  {
  }

  /** Tabs 1..5 show Next, which moves to the following tab; tab 6 shows Finish only. */
  lemma TabWalk(k: nat)
    requires 1 <= k <= 6
    ensures k < 6 ==> ShowsNext(NatToString(k)) && !ShowsFinish(NatToString(k))
                      && NextTab(NatToString(k)) == NatToString(k + 1)
    ensures k == 6 ==> ShowsFinish(NatToString(k)) && !ShowsNext(NatToString(k))
  {
    NatToStringRoundTrip(k);
  }

  /** The tab reached by pressing Next `n` times; `None` once a tab without Next is met. */
  function Walk(tab: string, n: nat): Option<string>
    decreases n
  {
    if n == 0 then Some(tab)
    else if ShowsNext(tab) then Walk(NextTab(tab), n - 1)
    else None
  }

  /** From the first tab, Next walks through every dimension in turn and stops on the Finish tab. */
  lemma {:induction false} FirstTabWalk(k: nat)
    requires 1 <= k <= 6
    ensures Walk(FIRST_TAB, k - 1) == Some(NatToString(k))
    ensures k == 6 ==> ShowsFinish(NatToString(k)) && Walk(FIRST_TAB, k) == None
  {
    if k == 1 {
      assert NatToString(1) == "1";
    } else {
      FirstTabWalk(k - 1);
      WalkStep(FIRST_TAB, k - 2, NatToString(k - 1));
      TabWalk(k - 1);
    }
    if k == 6 {
      TabWalk(6);
      WalkStep(FIRST_TAB, 5, NatToString(6));
    }
  }

  lemma {:induction false} WalkStep(tab: string, n: nat, t: string)
    requires Walk(tab, n) == Some(t)
    ensures Walk(tab, n + 1) == if ShowsNext(t) then Some(NextTab(t)) else None
    decreases n
  {
    if n > 0 {
      WalkStep(NextTab(tab), n - 1, t);
    }
  }

  // ---------------------------------------------------------------------
  // Calculate
  // ---------------------------------------------------------------------

  /**
   * `PUT /api/assessments/:id/values` as the Save button reaches it: a body
   * that fails the check changes nothing; otherwise the pairs are upserted.
   */
  method Save(db: Database, id: int, vals: FormValues) returns (accepted: bool)
    modifies db
    ensures accepted <==> Validate(Payload(vals)).Some?
    ensures accepted ==> db.values == UpsertAll(old(db.values), id, Validate(Payload(vals)).value)
    ensures !accepted ==> db.values == old(db.values)
    ensures db.villages == old(db.villages) && db.assessments == old(db.assessments)
  {
    var items := Validate(Payload(vals));
    accepted := items.Some?;
    if accepted {
      db.BulkUpdateAssessmentValues(id, items.value);
    }
  }

  /**
   * `handleCalculate`: save first; a rejected save is only reported, and the
   * calculation still runs, on whatever values are then stored.
   */
  method HandleCalculate(db: Database, id: int, vals: FormValues) returns (r: Option<Assessment>)
    modifies db
    ensures Validate(Payload(vals)).Some? ==> db.values == UpsertAll(old(db.values), id, Validate(Payload(vals)).value)
    ensures Validate(Payload(vals)).None? ==> db.values == old(db.values)
    ensures db.villages == old(db.villages)
    ensures r.Some? <==> old(db.GetAssessment(id)).Some?
    ensures r.None? ==> db.assessments == old(db.assessments)
    ensures r.Some? ==>
      var vs := ValuesOf(db.values, id);
      var total := ServerRoutes.WeightedTotal(vs, ServerRoutes.DIMENSIONS);
      && db.assessments == SetDerived(old(db.assessments), id, Label(ServerRoutes.StatusFor(total)), ToFixed(total, 2),
                                      ServerRoutes.ScoreMap(vs, ServerRoutes.DIMENSIONS))
      && r.value.id == id && r.value.totalScore == Some(ToFixed(total, 2))
      && r.value.status == Some(Label(ServerRoutes.StatusFor(total)))
      && r.value.dimensionScores == Some(ServerRoutes.ScoreMap(vs, ServerRoutes.DIMENSIONS))
  {
    var accepted := Save(db, id, vals);
    assert db.GetAssessment(id).Some? <==> old(db.GetAssessment(id)).Some?;
    r := ServerRoutes.Calculate(db, id);
  }
}
