/**
 * The value classifiers of typeCheck.js. Each body follows the source's own
 * test (mostly a `typeof` comparison); each contract says which kinds of value
 * the classifier accepts.
 */
module TypeCheck {
  import opened Js

  /** `isNullish`: true exactly for `null` and `undefined`. */
  function IsNullish(v: JsValue): (b: bool)
    ensures b <==> v.Null? || v.Undefined?
    ensures b ==> TypeOf(v) in {"object", "undefined"}
  {
    v == Null || v == Undefined
  }

  /** `isString`. */
  function IsString(v: JsValue): (b: bool)
    ensures b <==> v.Str?
  {
    TypeOf(v) == "string"
  }

  /** `isNumber`: a number that is not NaN; infinities are numbers. */
  function IsNumber(v: JsValue): (b: bool)
    ensures b <==> v.Number? && v.n != NaN
  {
    TypeOf(v) == "number" && !IsNaN(v)
  }

  /** The global `isNaN` on the values that reach it here. */
  function IsNaN(v: JsValue): bool
    requires v.Number?
  {
    v.n.NaN?
  }

  /** `isBoolean`. */
  function IsBoolean(v: JsValue): (b: bool)
    ensures b <==> v.Bool?
  {
    TypeOf(v) == "boolean"
  }

  /** `isArray` (`Array.isArray`). */
  function IsArray(v: JsValue): (b: bool)
    ensures b <==> v.Array?
    ensures b ==> TypeOf(v) == "object" && !IsNullish(v)
  {
    v.Array?
  }

  /** `isObject`: an object that is neither `null` nor an array (dates included). */
  function IsObject(v: JsValue): (b: bool)
    ensures b <==> v.Object? || v.Date?
    ensures b ==> !IsArray(v) && !IsNullish(v)
  {
    !IsNullish(v) && TypeOf(v) == "object" && !IsArray(v)
  }

  /** `isFunction`: the callable tag. */
  function IsFunction(v: JsValue): (b: bool)
    ensures b <==> v.Function?
  {
    TypeOf(v) == "function"
  }

  /** `isDate`: a `Date` whose time value is not NaN. */
  function IsDate(v: JsValue): (b: bool)
    ensures b <==> v.Date? && !v.time.NaN?
    ensures b ==> IsObject(v)
  {
    v.Date? && !v.time.NaN?
  }

  /**
   * `isEmpty`: a string or an array of length 0, or a plain object with no own
   * enumerable keys (a date has none); false for every other value.
   */
  function IsEmpty(v: JsValue): (b: bool)
    ensures v.Str? ==> (b <==> |v.s| == 0)
    ensures v.Array? ==> (b <==> |v.items| == 0)
    ensures v.Object? ==> (b <==> |v.entries| == 0)
    ensures v.Date? ==> b
    ensures v.Undefined? || v.Null? || v.Bool? || v.Number? || v.Function? ==> !b
  {
    if IsArray(v) || IsString(v) then
      Length(v) == 0
    else if IsObject(v) then
      |Keys(v)| == 0
    else
      false
  }

  /** The `length` property of a string or an array. */
  function Length(v: JsValue): nat
    requires v.Str? || v.Array?
  {
    if v.Str? then |v.s| else |v.items|
  }

  /** `Object.keys` of an object: its own enumerable keys, in order. */
  function Keys(v: JsValue): (ks: seq<string>)
    requires IsObject(v)
    ensures |ks| == if v.Object? then |v.entries| else 0
  {
    if v.Date? then [] else seq(|v.entries|, i requires 0 <= i < |v.entries| => v.entries[i].0)
  }

  /** `isDefined`: false only for `undefined`, so true for `null`. */
  function IsDefined(v: JsValue): (b: bool)
    ensures b <==> !v.Undefined?
    ensures v.Null? ==> b
  {
    v != Undefined
  }

  /** An object-like value is never also an array. */
  lemma ObjectIsNotArray(v: JsValue)
    ensures !(IsObject(v) && IsArray(v))
    ensures IsObject(Null) == false && IsObject(Undefined) == false
  {
  }
}
