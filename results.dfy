/**
 * The two-variant outcome wrapper of result.js: an `Ok` carrying a value or an
 * `Err` carrying an error. In JavaScript both classes store their payload in one
 * untyped `value` field read by the `val` getter; here the payload is the
 * destructor `value` of `Ok` and `error` of `Err`.
 */
module Results {

  datatype Option<T> = None | Some(value: T)

  datatype Result<T, E> = Ok(value: T) | Err(error: E) {

    /** The `ok` class field: true on `Ok`, false on `Err`. */
    function OkFlag(): (b: bool)
      ensures b <==> Ok?
    {
      match this
      case Ok(_) => true
      case Err(_) => false
    }

    /** The `err` class field: false on `Ok`, true on `Err`. */
    function ErrFlag(): (b: bool)
      ensures b <==> Err?
    {
      match this
      case Ok(_) => false
      case Err(_) => true
    }

    /** `map`: applies `f` to the payload of an `Ok`; an `Err` is returned as it is. */
    function Map<U>(f: T -> U): (r: Result<U, E>)
      ensures r.Ok? <==> Ok?
      ensures Ok? ==> r.value == f(value)
      ensures Err? ==> r.error == error
    {
      match this
      case Ok(v) => Ok(f(v))
      case Err(e) => Err(e)
    }

    /** `andThen`: hands the payload of an `Ok` to the next fallible step; an `Err` is returned as it is. */
    function AndThen<U>(f: T -> Result<U, E>): (r: Result<U, E>)
      ensures Ok? ==> r == f(value)
      ensures Err? ==> r == Err(error)
    {
      match this
      case Ok(v) => f(v)
      case Err(e) => Err(e)
    }

    /** `unwrap` (and `safeUnwrap`, which only `Ok` defines): on an `Err` the source throws. */
    function Unwrap(): (v: T)
      requires Ok?
      ensures this == Ok(v)
    {
      value
    }

    /** `unwrapOr`: the payload of an `Ok`, or the given default for an `Err`. */
    function UnwrapOr(default: T): (v: T)
      ensures Ok? ==> this == Ok(v)
      ensures Err? ==> v == default
    {
      match this
      case Ok(v) => v
      case Err(_) => default
    }
  }

  /** The `ok` and `err` flags are always complementary. */
  lemma FlagsComplementary<T, E>(r: Result<T, E>)
    ensures r.OkFlag() != r.ErrFlag()
    ensures r.OkFlag() <==> r.Ok?
  {
  }

  /** What each combinator does on an `Ok`. */
  lemma OkCombinators<T, U, E>(r: Result<T, E>, f: T -> U, g: T -> Result<U, E>, d: T)
    requires r.Ok?
    ensures r.Map(f) == Ok(f(r.value))
    ensures r.AndThen(g) == g(r.value)
    ensures r.Unwrap() == r.value
    ensures r.UnwrapOr(d) == r.value
  {
  }

  /** On an `Err`, `map` and `andThen` return the same error unchanged, and `unwrapOr` gives the default. */
  lemma ErrCombinators<T, U, E>(r: Result<T, E>, f: T -> U, g: T -> Result<U, E>, d: T)
    requires r.Err?
    ensures r.Map(f) == Err(r.error)
    ensures r.AndThen(g) == Err(r.error)
    ensures r.UnwrapOr(d) == d
  {
  }

  /** `r.andThen(Ok)` is `r`, and `r.map(x => x)` is `r`, for both variants. */
  lemma Identities<T, E>(r: Result<T, E>)
    ensures r.AndThen(x => Ok(x)) == r
    ensures r.Map(x => x) == r
  {
  }

  /** Chaining `andThen` is associative, so a pipeline of steps may be grouped either way. */
  lemma AndThenAssociative<T, U, V, E>(r: Result<T, E>, f: T -> Result<U, E>, g: U -> Result<V, E>)
    ensures r.AndThen(f).AndThen(g) == r.AndThen(x => f(x).AndThen(g))
  {
  }

  /** A result threaded through a sequence of fallible steps, one `andThen` per step. */
  function Chain<T, E>(r: Result<T, E>, steps: seq<T -> Result<T, E>>): Result<T, E>
    decreases |steps|
  {
    if steps == [] then r else Chain(r.AndThen(steps[0]), steps[1..])
  }

  /** A failure short-circuits a chain of any length: the same `Err(e)` comes out. */
  lemma {:induction false} ChainShortCircuits<T, E>(e: E, steps: seq<T -> Result<T, E>>)
    ensures Chain(Err(e), steps) == Err(e)
    decreases |steps|
  {
    if steps != [] {
      ChainShortCircuits(e, steps[1..]);
    }
  }

  /** A chain ends in `Ok` only if it started from `Ok` and no step failed on the way. */
  lemma {:induction false} ChainOkNeedsOk<T, E>(r: Result<T, E>, steps: seq<T -> Result<T, E>>)
    requires Chain(r, steps).Ok?
    ensures r.Ok?
    ensures steps != [] ==> steps[0](r.value).Ok?
    decreases |steps|
  {
    if steps != [] {
      if r.Err? {
        ChainShortCircuits(r.error, steps[1..]);
      } else if steps[0](r.value).Err? {
        ChainShortCircuits(steps[0](r.value).error, steps[1..]);
      }
    }
  }
}
