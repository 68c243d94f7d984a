/** The number checks of numbers.js. */
module Numbers {
  import opened Js
  import opened Results
  import opened TypeCheck

  /**
   * The `TypeError`s `validateNumber` returns, each holding the offending value;
   * `Message` renders the text the source builds from it.
   */
  datatype NumberError = Nullish(value: JsValue) | NotANumber(value: JsValue) | Infinite(value: JsValue)

  /** The error text, given how the value is interpolated into a template string. */
  function Message(e: NumberError, show: JsValue -> string): (m: string)
    ensures e.Nullish? ==> m == show(e.value) + " is nullish"
    ensures e.NotANumber? ==> m == show(e.value) + " is not a number"
    ensures e.Infinite? ==> m == show(e.value) + " is infenite"
  {
    match e
    case Nullish(v) => show(v) + " is nullish"
    case NotANumber(v) => show(v) + " is not a number"
    case Infinite(v) => show(v) + " is infenite"
  }

  /** The global `isFinite` on a number. */
  function IsFinite(n: Num): bool {
    n.Finite?
  }

  /**
   * `validateNumber`: nullish values, then values that are not numbers (NaN
   * included), then infinities are refused, in that order; a finite number is
   * returned unchanged.
   */
  function ValidateNumber(v: JsValue): (r: Result<Num, NumberError>)
    ensures r.Ok? <==> v.Number? && v.n.Finite?
    ensures r.Ok? ==> v == Number(r.value)
    ensures r.Err? ==> r.error.value == v
    ensures r.Err? && r.error.Nullish? <==> v.Null? || v.Undefined?
    ensures r.Err? && r.error.NotANumber? <==> !v.Null? && !v.Undefined? && (!v.Number? || v.n.NaN?)
    ensures r.Err? && r.error.Infinite? <==> v.Number? && (v.n.PosInfinity? || v.n.NegInfinity?)
  {
    if IsNullish(v) then
      Err(Nullish(v))
    else if !IsNumber(v) then
      Err(NotANumber(v))
    else if !IsFinite(v.n) then
      Err(Infinite(v))
    else
      Ok(v.n)
  }

  /**
   * `safeParseFloat`: `Number.parseFloat`, given as `parseFloat`, always yields
   * a number, so the result is never a nullish error; it is `Ok` exactly when
   * the parse is finite.
   */
  function SafeParseFloat(str: JsValue, parseFloat: JsValue -> Num): (r: Result<Num, NumberError>)
    ensures r.Ok? <==> parseFloat(str).Finite?
    ensures r.Ok? ==> r.value == parseFloat(str)
    ensures r.Err? ==> r.error == NotANumber(Number(parseFloat(str))) || r.error == Infinite(Number(parseFloat(str)))
  {
    ValidateNumber(Number(parseFloat(str)))
  }
}
