/**
 * The JavaScript string operations the application relies on: `startsWith`,
 * `includes`, `replace` with a string pattern, `toLowerCase`, `trim`,
 * `String(n)`, `parseInt` and `Number.prototype.toFixed`.
 * Characters are Dafny `char`s; case folding and white space cover ASCII only.
 */
module Text {
  import opened Wrappers

  /** JavaScript startsWith: `prefix` is a prefix of `s`. */
  predicate StartsWith(s: string, prefix: string) {
    |prefix| <= |s| && s[..|prefix|] == prefix
  }

  /** `sub` occurs in `s` starting at index `i` */
  predicate OccursAt(s: string, sub: string, i: nat) {
    i + |sub| <= |s| && s[i..i + |sub|] == sub
  }

  /** The first index at or after `k` at which `sub` occurs. */
  function IndexFrom(s: string, sub: string, k: nat): (r: Option<nat>)
    ensures r.Some? ==> k <= r.value && OccursAt(s, sub, r.value)
    ensures r.Some? ==> forall j :: k <= j < r.value ==> !OccursAt(s, sub, j)
    ensures r.None? ==> forall j :: k <= j ==> !OccursAt(s, sub, j)
    decreases |s| - k
  {
    if k + |sub| > |s| then None
    else if s[k..k + |sub|] == sub then Some(k)
    else IndexFrom(s, sub, k + 1)
  }

  /** `s.indexOf(sub)`, with `None` for -1: the first index at which `sub` occurs. */
  function IndexOf(s: string, sub: string): (r: Option<nat>)
    ensures r.Some? ==> OccursAt(s, sub, r.value)
    ensures r.Some? ==> forall j :: 0 <= j < r.value ==> !OccursAt(s, sub, j)
    ensures r.None? ==> forall j :: 0 <= j ==> !OccursAt(s, sub, j)
  {
    IndexFrom(s, sub, 0)
  }

  /** JavaScript includes: `sub` occurs somewhere in `s`. */
  predicate Contains(s: string, sub: string) {
    IndexOf(s, sub).Some?
  }

  lemma ContainsIff(s: string, sub: string)
    ensures Contains(s, sub) <==> exists j :: 0 <= j && OccursAt(s, sub, j)
  {
    if Contains(s, sub) {
      assert OccursAt(s, sub, IndexOf(s, sub).value);
    }
  }

  /** The empty string occurs in every string, as `"abc".includes("")` is true. */
  lemma ContainsEmpty(s: string)
    ensures Contains(s, "")
  {
    assert OccursAt(s, "", 0);
  }

  /**
   * The replacement text that JavaScript's `replace` inserts for a string
   * pattern, which has no capture groups: "$$" stands for "$", "$&" for the
   * matched text, "$`" for the text before the match and "$'" for the text
   * after it; every other character, a lone "$" included, stands for itself.
   */
  function Expand(rep: string, before: string, matched: string, after: string): (r: string)
    ensures '$' !in rep ==> r == rep
    decreases |rep|
  {
    if rep == [] then []
    else if rep[0] == '$' && |rep| >= 2 && rep[1] == '$' then "$" + Expand(rep[2..], before, matched, after)
    else if rep[0] == '$' && |rep| >= 2 && rep[1] == '&' then matched + Expand(rep[2..], before, matched, after)
    else if rep[0] == '$' && |rep| >= 2 && rep[1] == '`' then before + Expand(rep[2..], before, matched, after)
    else if rep[0] == '$' && |rep| >= 2 && rep[1] == '\'' then after + Expand(rep[2..], before, matched, after)
    else [rep[0]] + Expand(rep[1..], before, matched, after)
  }

  /** `s.replace(sub, rep)` with a string pattern: only the first occurrence is replaced. */
  function ReplaceFirst(s: string, sub: string, rep: string): string {
    match IndexOf(s, sub)
    case None => s
    case Some(i) => s[..i] + Expand(rep, s[..i], sub, s[i + |sub|..]) + s[i + |sub|..]
  }

  function LowerChar(c: char): char {
    if 'A' <= c <= 'Z' then (c as int + 32) as char else c
  }

  /** `s.toLowerCase()`, ASCII letters only */
  function ToLower(s: string): (r: string)
    ensures |r| == |s|
  {
    seq(|s|, i requires 0 <= i < |s| => LowerChar(s[i]))
  }

  /** Lower-casing twice changes nothing more than lower-casing once. */
  lemma ToLowerIdempotent(s: string)
    ensures ToLower(ToLower(s)) == ToLower(s)
  {
  }

  /** The white space that `String.prototype.trim` removes, restricted to ASCII. */
  predicate IsSpace(c: char) {
    c == ' ' || c == '\t' || c == '\n' || c == '\r' || c == 11 as char || c == 12 as char
  }

  function TrimStart(s: string): (r: string)
    decreases |s|
  {
    if s != [] && IsSpace(s[0]) then TrimStart(s[1..]) else s
  }

  function TrimEnd(s: string): (r: string)
    decreases |s|
  {
    if s != [] && IsSpace(s[|s| - 1]) then TrimEnd(s[..|s| - 1]) else s
  }

  /** JavaScript trim: leading and trailing white space removed. */
  function Trim(s: string): string {
    TrimEnd(TrimStart(s))
  }

  predicate IsBlank(s: string) {
    forall i :: 0 <= i < |s| ==> IsSpace(s[i])
  }

  lemma {:induction false} TrimStartEmptyIff(s: string)
    ensures TrimStart(s) == [] <==> IsBlank(s)
    decreases |s|
  {
    if s != [] && IsSpace(s[0]) {
      TrimStartEmptyIff(s[1..]);
      assert IsBlank(s) <==> IsBlank(s[1..]) by {
        if IsBlank(s[1..]) {
          forall i | 0 <= i < |s| ensures IsSpace(s[i]) {
            if i > 0 { assert s[i] == s[1..][i - 1]; }
          }
        }
      }
    } else if s != [] {
      assert !IsSpace(s[0]);
    }
  }

  lemma {:induction false} TrimEndOfNonBlank(s: string)
    requires s != [] && !IsSpace(s[0])
    ensures TrimEnd(s) != []
    decreases |s|
  {
    if IsSpace(s[|s| - 1]) {
      TrimEndOfNonBlank(s[..|s| - 1]);
    }
  }

  /** `!s.trim()` holds exactly when every character of `s` is white space (the empty string included). */
  lemma TrimEmptyIff(s: string)
    ensures Trim(s) == "" <==> IsBlank(s)
  {
    TrimStartEmptyIff(s);
    if TrimStart(s) != [] {
      TrimStartShape(s);
      TrimEndOfNonBlank(TrimStart(s));
    }
  }

  lemma {:induction false} TrimStartShape(s: string)
    ensures TrimStart(s) != [] ==> !IsSpace(TrimStart(s)[0])
    decreases |s|
  {
    if s != [] && IsSpace(s[0]) {
      TrimStartShape(s[1..]);
    }
  }

  predicate IsDigit(c: char) {
    '0' <= c <= '9'
  }

  function DigitChar(d: nat): (c: char)
    requires d < 10
    ensures IsDigit(c)
  {
    ('0' as int + d) as char
  }

  function DigitValue(c: char): (d: nat)
    requires IsDigit(c)
    ensures d < 10 && DigitChar(d) == c
  {
    c as int - '0' as int
  }

  /** `String(n)` for a non-negative integer: its decimal digits without leading zeros. */
  function NatToString(n: nat): (r: string)
    ensures |r| >= 1
    ensures forall i :: 0 <= i < |r| ==> IsDigit(r[i])
  {
    if n < 10 then [DigitChar(n)] else NatToString(n / 10) + [DigitChar(n % 10)]
  }

  /** `String(i)` for any integer */
  function IntToString(i: int): string {
    if i < 0 then "-" + NatToString(-i) else NatToString(i)
  }

  /** The longest prefix of `s` made of decimal digits. */
  function DigitPrefix(s: string): (r: string)
    ensures |r| <= |s| && r == s[..|r|]
    ensures forall i :: 0 <= i < |r| ==> IsDigit(r[i])
    ensures |r| < |s| ==> !IsDigit(s[|r|])
    decreases |s|
  {
    if s != [] && IsDigit(s[0]) then [s[0]] + DigitPrefix(s[1..]) else []
  }

  /** The number a string of decimal digits denotes. */
  function DigitsValue(ds: string): nat
    requires forall i :: 0 <= i < |ds| ==> IsDigit(ds[i])
  {
    if ds == [] then 0 else DigitsValue(ds[..|ds| - 1]) * 10 + DigitValue(ds[|ds| - 1])
  }

  function SkipSpaces(s: string): string
    decreases |s|
  {
    if s != [] && IsSpace(s[0]) then SkipSpaces(s[1..]) else s
  }

  /**
   * `parseInt(s)` (radix 10): leading white space, an optional sign, then the
   * longest run of digits; `None` stands for `NaN` when there is no digit.
   */
  function ParseInt(s: string): Option<int> {
    var t := SkipSpaces(s);
    var negative := t != [] && t[0] == '-';
    var body := if t != [] && (t[0] == '-' || t[0] == '+') then t[1..] else t;
    var ds := DigitPrefix(body);
    var v: int := if ds == [] then 0 else DigitsValue(ds);
    if ds == [] then None else Some(if negative then -v else v)
  }

  lemma {:induction false} DigitPrefixOfDigits(s: string)
    requires forall i :: 0 <= i < |s| ==> IsDigit(s[i])
    ensures DigitPrefix(s) == s
    decreases |s|
  {
    if s != [] {
      DigitPrefixOfDigits(s[1..]);
    }
  }

  lemma {:induction false} DigitsValueOfNatToString(n: nat)
    ensures DigitsValue(NatToString(n)) == n
  {
    var r := NatToString(n);
    if n >= 10 {
      DigitsValueOfNatToString(n / 10);
      assert r[..|r| - 1] == NatToString(n / 10);
      assert DigitValue(r[|r| - 1]) == n % 10;
    }
  }

  /** `parseInt(String(n)) == n`: the decimal rendering of a natural number reads back as that number. */
  lemma NatToStringRoundTrip(n: nat)
    ensures ParseInt(NatToString(n)) == Some(n)
  {
    var s := NatToString(n);
    assert SkipSpaces(s) == s;
    DigitPrefixOfDigits(s);
    DigitsValueOfNatToString(n);
  }

  /** Distinct integers have distinct decimal renderings. */
  lemma IntToStringInjective(a: int, b: int)
    requires IntToString(a) == IntToString(b)
    ensures a == b
  {
    if a < 0 && b < 0 {
      assert NatToString(-a) == NatToString(-b) by {
        NegativeRendering(a);
        NegativeRendering(b);
      }
      NatToStringInjective(-a, -b);
    } else if a >= 0 && b >= 0 {
      NatToStringInjective(a, b);
    } else {
      RenderingHead(a);
      RenderingHead(b);
      assert false;
    }
  }

  /** A rendering starts with a minus sign exactly when the number is negative. */
  lemma RenderingHead(i: int)
    ensures |IntToString(i)| >= 1 && (IntToString(i)[0] == '-' <==> i < 0)
  {
    if i >= 0 {
      assert IsDigit(NatToString(i)[0]);
    }
  }

  lemma NegativeRendering(i: int)
    requires i < 0
    ensures IntToString(i)[1..] == NatToString(-i)
  {
  }

  lemma NatToStringInjective(a: nat, b: nat)
    requires NatToString(a) == NatToString(b)
    ensures a == b
  {
    NatToStringRoundTrip(a);
    NatToStringRoundTrip(b);
  }

  function Pow10(digits: nat): (p: nat)
    ensures p >= 1
  {
    if digits == 0 then 1 else 10 * Pow10(digits - 1)
  }

  /** `m` rounded to the nearest multiple of 1/scale, halves rounded up */
  function RoundHalfUp(m: real, scale: real): real
    requires scale > 0.0
  {
    ((m * scale + 0.5).Floor as real) / scale
  }

  /**
   * `Number(x.toFixed(digits))`: ECMAScript picks the integer n nearest to
   * |x|·10^digits, the larger one on a tie, and restores the sign.
   * Exact decimal arithmetic stands in for the binary double.
   */
  function ToFixed(x: real, digits: nat): real {
    var scale := Pow10(digits) as real;
    if x < 0.0 then -RoundHalfUp(-x, scale) else RoundHalfUp(x, scale)
  }

  /** Rounding to two decimals moves a value by at most half a hundredth. */
  lemma ToFixed2Error(x: real)
    ensures x - 0.005 <= ToFixed(x, 2) <= x + 0.005
  {
    assert Pow10(2) == 100;
  }

  /** Rounding to one decimal moves a value by at most half a tenth. */
  lemma ToFixed1Error(x: real)
    ensures x - 0.05 <= ToFixed(x, 1) <= x + 0.05
  {
    assert Pow10(1) == 10;
  }

  /** A value between two whole numbers stays between them after rounding. */
  lemma ToFixedWithin(x: real, lo: int, hi: int, digits: nat)
    requires lo as real <= x <= hi as real
    ensures lo as real <= ToFixed(x, digits) <= hi as real
  {
    if x < 0.0 {
      RoundedBetween(-x, -hi, -lo, Pow10(digits));
    } else {
      RoundedBetween(x, lo, hi, Pow10(digits));
    }
  }

  lemma RoundedBetween(y: real, lo: int, hi: int, n: nat)
    requires lo as real <= y <= hi as real && n >= 1
    ensures lo as real <= RoundHalfUp(y, n as real) <= hi as real
  {
    RoundHalfUpIs(y, n as real);
    FloorOfScaledBetween(y, lo, hi, n);
    QuotientBetween((y * n as real + 0.5).Floor, lo, hi, n);
  }

  lemma FloorOfScaledBetween(y: real, lo: int, hi: int, n: nat)
    requires lo as real <= y <= hi as real
    ensures lo * n <= (y * n as real + 0.5).Floor <= hi * n
  {
    ScaledBetween(y, lo, hi, n);
    FloorBetween(y * n as real, lo * n, hi * n);
  }

  lemma QuotientBetween(f: int, lo: int, hi: int, n: nat)
    requires lo * n <= f <= hi * n && n >= 1
    ensures lo as real <= f as real / n as real <= hi as real
  {
    CastBetween(f, lo, hi, n);
    DivBetween(f as real, lo as real, hi as real, n as real);
  }

  lemma ScaledBetween(y: real, lo: int, hi: int, n: nat)
    requires lo as real <= y <= hi as real
    ensures (lo * n) as real <= y * n as real <= (hi * n) as real
  {
    MulMono(lo as real, y, n as real);
    MulMono(y, hi as real, n as real);
    CastProduct(lo, n);
    CastProduct(hi, n);
  }

  lemma CastBetween(f: int, lo: int, hi: int, n: nat)
    requires lo * n <= f <= hi * n
    ensures lo as real * n as real <= f as real <= hi as real * n as real
  {
    CastProduct(lo, n);
    CastProduct(hi, n);
  }

  lemma RoundHalfUpIs(y: real, s: real)
    requires s > 0.0
    ensures RoundHalfUp(y, s) == ((y * s + 0.5).Floor as real) / s
  {
  }

  lemma CastProduct(a: int, n: nat)
    ensures (a * n) as real == a as real * n as real
  {
  }

  lemma MulMono(a: real, b: real, s: real)
    requires a <= b && s >= 0.0
    ensures a * s <= b * s
  {
  }

  lemma FloorBetween(z: real, a: int, b: int)
    requires a as real <= z <= b as real
    ensures a <= (z + 0.5).Floor <= b
  {
  }

  lemma DivBetween(x: real, lo: real, hi: real, s: real)
    requires s > 0.0 && lo * s <= x <= hi * s
    ensures lo <= x / s <= hi
  {
    var q := x / s;
    assert q * s == x;
    assert (q - lo) * s >= 0.0;
    assert (hi - q) * s >= 0.0;
  }
}
