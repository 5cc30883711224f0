/**
 * The shared API contract: the paths of the assessment endpoints, the
 * `buildUrl` helper that fills `:key` placeholders in a path, and the input
 * constraint of the values update, which is what the scorer relies on.
 */
module SharedRoutes {
  import opened Wrappers
  import opened Text
  import opened Schema
  import opened Storage
  import ServerRoutes

  const ASSESSMENT_PATH := "/api/assessments/:id"
  const CALCULATE_PATH := "/api/assessments/:id/calculate"
  const VALUES_PATH := "/api/assessments/:id/values"
  const EXPORT_PATH := "/api/assessments/:id/export"

  /** A parameter value: `string | number` (numbers are integers here). */
  datatype ParamValue = Str(s: string) | Num(n: int)

  /** The text a parameter value is rendered as. */
  function ParamString(v: ParamValue): string {
    match v
    case Str(s) => s
    case Num(n) => IntToString(n)
  }

  function Placeholder(key: string): string {
    ":" + key
  }

  /** One step of the `forEach`: replace the first `:key` if the url contains it. */
  function Substitute(url: string, key: string, v: ParamValue): string {
    if Contains(url, Placeholder(key)) then ReplaceFirst(url, Placeholder(key), ParamString(v)) else url
  }

  /** The entries of `params`, substituted one after the other in entry order. */
  function ApplyParams(url: string, entries: seq<(string, ParamValue)>): string
    decreases |entries|
  {
    if entries == [] then url else ApplyParams(Substitute(url, entries[0].0, entries[0].1), entries[1..])
  }

  /** `buildUrl(path, params)`; `None` stands for an absent `params` object. */
  method BuildUrl(path: string, params: Option<seq<(string, ParamValue)>>) returns (url: string)
    ensures params.None? ==> url == path
    ensures params.Some? ==> url == ApplyParams(path, params.value)
  {
    url := path;
    if params.Some? {
      var entries := params.value;
      var i := 0;
      while i < |entries|
        invariant 0 <= i <= |entries|
        invariant ApplyParams(url, entries[i..]) == ApplyParams(path, entries)
      {
        var (key, value) := entries[i];
        assert entries[i..][1..] == entries[i + 1..];
        if Contains(url, ":" + key) {
          url := ReplaceFirst(url, ":" + key, ParamString(value));
        }
        i := i + 1;
      }
      assert entries[i..] == [];
    }
  }

  /** A url that contains none of the placeholders comes back unchanged. */
  lemma {:induction false} MissingKeysIgnored(url: string, entries: seq<(string, ParamValue)>)
    requires forall e :: e in entries ==> !Contains(url, Placeholder(e.0))
    ensures ApplyParams(url, entries) == url
    decreases |entries|
  {
    if entries != [] {
      assert entries[0] in entries;
      forall e | e in entries[1..] ensures !Contains(url, Placeholder(e.0)) {
        assert e in entries;
      }
      MissingKeysIgnored(url, entries[1..]);
    }
  }

  /**
   * When no colon precedes the first placeholder, exactly that placeholder is
   * replaced and the rest of the url, later placeholders included, is kept.
   * The value is inserted with its "$" patterns expanded, so it is inserted
   * as it is when it holds no "$", as every number does.
   */
  lemma SubstituteFirst(pre: string, key: string, post: string, v: ParamValue)
    requires ':' !in pre
    ensures Substitute(pre + Placeholder(key) + post, key, v) ==
      pre + Expand(ParamString(v), pre, Placeholder(key), post) + post
    ensures '$' !in ParamString(v) ==> Substitute(pre + Placeholder(key) + post, key, v) == pre + ParamString(v) + post
  {
    var s := pre + Placeholder(key) + post;
    var sub := Placeholder(key);
    assert OccursAt(s, sub, |pre|) by {
      assert s[|pre|..|pre| + |sub|] == sub;
    }
    assert s[..|pre|] == pre;
    var i := IndexOf(s, sub);
    if i.Some? && i.value < |pre| {
      NoPlaceholderInside(pre, s, sub, i.value);
      assert false;
    }
    assert s[..|pre|] == pre;
    assert s[|pre| + |sub|..] == post;
  }

  /** A number is rendered with digits and possibly a minus sign, never a "$". */
  lemma NumberHasNoDollar(n: int)
    ensures '$' !in ParamString(Num(n))
  {
  }

  /** A string value is expanded as `replace` expands it: "$&" puts the placeholder back. */
  lemma MatchPatternKeepsPlaceholder()
    ensures Substitute("/a/:id", "id", Str("$&")) == "/a/:id"
  {
    assert "/a/:id" == "/a/" + Placeholder("id") + "";
    SubstituteFirst("/a/", "id", "", Str("$&"));
    assert Expand("$&", "/a/", ":id", "") == ":id" by {
      assert "$&"[2..] == [];
    }
  }

  /** "$$" in a string value inserts a single "$". */
  lemma DollarPatternInsertsOneDollar()
    ensures Substitute("/a/:id", "id", Str("$$")) == "/a/$"
  {
    assert "/a/:id" == "/a/" + Placeholder("id") + "";
    SubstituteFirst("/a/", "id", "", Str("$$"));
    assert Expand("$$", "/a/", ":id", "") == "$" by {
      assert "$$"[2..] == [];
    }
  }

  /** "$'" in a string value copies the rest of the url after the placeholder. */
  lemma AfterPatternCopiesRest()
    ensures Substitute("/a/:id/b", "id", Str("$'")) == "/a//b/b"
  {
    assert "/a/:id/b" == "/a/" + Placeholder("id") + "/b";
    SubstituteFirst("/a/", "id", "/b", Str("$'"));
    assert Expand("$'", "/a/", ":id", "/b") == "/b" by {
      assert "$'"[2..] == [];
    }
    assert "/a/" + "/b" + "/b" == "/a//b/b";
  }

  lemma NoPlaceholderInside(pre: string, s: string, sub: string, j: nat)
    requires ':' !in pre && |pre| <= |s| && s[..|pre|] == pre && j < |pre|
    requires sub != [] && sub[0] == ':'
    ensures !OccursAt(s, sub, j)
  {
  }

  /** Placeholders are found by plain substring search, so ":id" also matches inside ":idx". */
  lemma PlaceholderMatchesLongerName()
    ensures Substitute("/api/items/:idx", "id", Num(7)) == "/api/items/7x"
  {
    assert "/api/items/:idx" == "/api/items/" + Placeholder("id") + "x";
    NumberHasNoDollar(7);
    SubstituteFirst("/api/items/", "id", "x", Num(7));
    assert ParamString(Num(7)) == "7" by {
      assert IntToString(7) == [DigitChar(7)];
    }
    assert "/api/items/" + "7" + "x" == "/api/items/7x";
  }

  /** Filling ":id" of the calculate path with an id gives ".../<id>/calculate". */
  lemma CalculateUrl(id: int)
    ensures ApplyParams(CALCULATE_PATH, [("id", Num(id))]) == "/api/assessments/" + IntToString(id) + "/calculate"
  {
    assert CALCULATE_PATH == "/api/assessments/" + Placeholder("id") + "/calculate";
    NumberHasNoDollar(id);
    SubstituteFirst("/api/assessments/", "id", "/calculate", Num(id));
    assert [("id", Num(id))][1..] == [];
  }

  /** A value the `updateValues` input admits: a number with 1 <= value <= 5. */
  predicate ValueAccepted(value: real) {
    1.0 <= value <= 5.0
  }

  /** The whole `updateValues` body is accepted exactly when every value is. */
  predicate UpdateValuesAccepted(values: seq<ValueInput>) {
    forall x :: x in values ==> ValueAccepted(x.value as real)
  }

  /** An accepted input keeps every stored score in 1..5, the range the scorer assumes. */
  lemma {:induction false} UpsertAllKeepsRange(rows: seq<AssessmentValue>, assessmentId: int, items: seq<ValueInput>)
    requires ServerRoutes.InRange(rows) && UpdateValuesAccepted(items)
    ensures ServerRoutes.InRange(UpsertAll(rows, assessmentId, items))
    decreases |items|
  {
    if items != [] {
      assert items[0] in items;
      var next := Upsert(rows, assessmentId, items[0]);
      assert ServerRoutes.InRange(next);
      assert UpdateValuesAccepted(items[1..]) by {
        forall x | x in items[1..] ensures ValueAccepted(x.value as real) {
          assert x in items;
        }
      }
      UpsertAllKeepsRange(next, assessmentId, items[1..]);
    }
  }
}
