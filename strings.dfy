/** The blank-string checks of utils/type/strings.js. */
module Strings {
  import opened Js
  import opened TypeCheck

  /**
   * `isNullishOrEmpty`: true for `null`, `undefined` and every value that is
   * not a string; for a string, true exactly when it has length 0.
   */
  function IsNullishOrEmpty(v: JsValue): (b: bool)
    ensures !v.Str? ==> b
    ensures v.Str? ==> (b <==> v.s == [])
  {
    if IsNullish(v) then
      true
    else if !IsString(v) then
      true
    else
      IsEmpty(v)
  }

  /**
   * `isNullishOrEmptyOrWhitespace`: true for every value that is not a string;
   * for a string, true exactly when each of its characters is one `trim` strips.
   */
  function IsNullishOrEmptyOrWhitespace(v: JsValue): (b: bool)
    ensures !v.Str? ==> b
    ensures v.Str? ==> (b <==> forall k :: 0 <= k < |v.s| ==> IsTrimmed(v.s[k]))
  {
    if IsNullish(v) then
      true
    else if !IsString(v) then
      true
    else
      IsEmpty(Str(Trim(v.s)))
  }

  /** Empty implies blank. */
  lemma EmptyIsBlank(v: JsValue)
    ensures IsNullishOrEmpty(v) ==> IsNullishOrEmptyOrWhitespace(v)
  {
  }

  /** A string holding a character that `trim` keeps is not blank. */
  lemma VisibleCharNotBlank(s: string, k: nat)
    requires k < |s| && !IsTrimmed(s[k])
    ensures !IsNullishOrEmptyOrWhitespace(Str(s))
  {
  }
}
