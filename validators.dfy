/** The field check shared by every request validator. */
module Validators {
  import opened JsValues

  /**
   * `isString`: false for the empty string (tested first), false for every
   * value that is not a string, true otherwise. There is no trimming, so a
   * string of spaces passes.
   */
  function IsString(v: JsValue): (r: bool)
    ensures r <==> v.JsString? && |v.s| > 0
  {
    if v == JsString("") then false
    else if !v.JsString? then false
    else true
  }

  /** A whitespace-only string passes `isString`, because it does not trim. */
  lemma WhitespaceOnlyIsString(s: string)
    requires s != [] && AllWhitespace(s)
    ensures IsString(JsString(s))
    ensures Trim(s) == []
  {
    TrimEmptyIffAllWhitespace(s);
  }

  /** Every string value that passes `isString` is truthy, and nothing else passing it is. */
  lemma IsStringImpliesTruthy(v: JsValue)
    ensures IsString(v) ==> Truthy(v) && v.JsString?
  {
  }
}
