/**
 * The JavaScript values that arrive in request bodies, JavaScript truthiness,
 * and `String.prototype.trim`.
 */
module JsValues {

  /** A JavaScript number: NaN or a (finite) value. Infinities are not modelled. */
  datatype Number = NaN | Num(value: real)

  /** A JSON-ish JavaScript value as a request body may carry it. */
  datatype JsValue =
    | JsUndefined
    | JsNull
    | JsBool(b: bool)
    | JsNumber(n: Number)
    | JsString(s: string)
    | JsObject  // any object or array

  /** `isNaN` applied to a number. */
  predicate IsNaN(n: Number) {
    n.NaN?
  }

  /** JavaScript truthiness of a number: false for 0 and NaN. */
  predicate NumberTruthy(n: Number) {
    n.Num? && n.value != 0.0
  }

  /** JavaScript truthiness (what `if (v)` and `v && ...` test). */
  predicate Truthy(v: JsValue) {
    match v
    case JsUndefined => false
    case JsNull => false
    case JsBool(b) => b
    case JsNumber(n) => NumberTruthy(n)
    case JsString(s) => s != ""
    case JsObject => true
  }

  /** The declared TypeScript type `string | null | undefined`. */
  predicate IsOptionalString(v: JsValue) {
    v.JsString? || v.JsNull? || v.JsUndefined?
  }

  /**
   * The characters `trim` removes: ECMAScript WhiteSpace (tab, vertical tab,
   * form feed, space, no-break space, zero-width no-break space and every
   * Unicode space separator) and LineTerminator (LF, CR, LS, PS).
   */
  predicate IsWhitespace(c: char) {
    || c == '\t' || c == '\n' || c == '\U{000B}' || c == '\U{000C}' || c == '\r'
    || c == ' ' || c == '\U{00A0}' || c == '\U{1680}'
    || ('\U{2000}' <= c <= '\U{200A}')
    || c == '\U{2028}' || c == '\U{2029}' || c == '\U{202F}' || c == '\U{205F}'
    || c == '\U{3000}' || c == '\U{FEFF}'
  }

  predicate AllWhitespace(s: string) {
    forall i :: 0 <= i < |s| ==> IsWhitespace(s[i])
  }

  /** `s` neither starts nor ends with whitespace. */
  predicate IsTrimmed(s: string) {
    s == [] || (!IsWhitespace(s[0]) && !IsWhitespace(s[|s| - 1]))
  }

  /** The index of the first character at or after `i` that is not whitespace, or `|s|`. */
  function SkipWhitespace(s: string, i: nat): (k: nat)
    requires i <= |s|
    ensures i <= k <= |s|
    ensures forall j :: i <= j < k ==> IsWhitespace(s[j])
    ensures k < |s| ==> !IsWhitespace(s[k])
    decreases |s| - i
  {
    if i < |s| && IsWhitespace(s[i]) then SkipWhitespace(s, i + 1) else i
  }

  /**
   * Walking back from `e` no further than `lo`: the index just past the last
   * character that is not whitespace, or `lo`.
   */
  function SkipWhitespaceBack(s: string, lo: nat, e: nat): (k: nat)
    requires lo <= e <= |s|
    ensures lo <= k <= e
    ensures forall j :: k <= j < e ==> IsWhitespace(s[j])
    ensures k > lo ==> !IsWhitespace(s[k - 1])
    decreases e - lo
  {
    if e > lo && IsWhitespace(s[e - 1]) then SkipWhitespaceBack(s, lo, e - 1) else e
  }

  /** How many leading whitespace characters `trim` drops from `s`. */
  function LeadingWhitespace(s: string): (k: nat)
    ensures k <= |s|
    ensures forall j :: 0 <= j < k ==> IsWhitespace(s[j])
    ensures k < |s| ==> !IsWhitespace(s[k])
  {
    SkipWhitespace(s, 0)
  }

  /**
   * `String.prototype.trim`: the part of `s` between its leading and its
   * trailing whitespace.
   */
  function Trim(s: string): (r: string)
    ensures IsTrimmed(r)
    ensures LeadingWhitespace(s) + |r| <= |s|
    ensures r == s[LeadingWhitespace(s)..LeadingWhitespace(s) + |r|]
    ensures forall i :: 0 <= i < LeadingWhitespace(s) ==> IsWhitespace(s[i])
    ensures forall i :: LeadingWhitespace(s) + |r| <= i < |s| ==> IsWhitespace(s[i])
  {
    var k := LeadingWhitespace(s);
    var e := SkipWhitespaceBack(s, k, |s|);
    assert k < e ==> s[k..e][0] == s[k] && s[k..e][e - k - 1] == s[e - 1];
    s[k..e]
  }

  /** Trimming a string that has no surrounding whitespace leaves it as it is. */
  lemma {:induction false} TrimOfTrimmed(s: string)
    requires IsTrimmed(s)
    ensures Trim(s) == s
  {
  }

  /** Trimming twice is trimming once. */
  lemma {:induction false} TrimIdempotent(s: string)
    ensures Trim(Trim(s)) == Trim(s)
  {
    TrimOfTrimmed(Trim(s));
  }

  /** A string trims to the empty string exactly when it is all whitespace. */
  lemma {:induction false} TrimEmptyIffAllWhitespace(s: string)
    ensures Trim(s) == [] <==> AllWhitespace(s)
  {
    if Trim(s) != [] {
      assert s[LeadingWhitespace(s)] == Trim(s)[0];
    }
  }

  /** Trims every element of a list of strings, keeping its length and order. */
  function TrimEach(ids: seq<string>): (r: seq<string>)
    ensures |r| == |ids|
    ensures forall i :: 0 <= i < |ids| ==> r[i] == Trim(ids[i])
  {
    if ids == [] then [] else [Trim(ids[0])] + TrimEach(ids[1..])
  }
}
