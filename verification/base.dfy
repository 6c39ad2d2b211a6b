/**
 * Values and conventions of the JavaScript runtime the game runs on:
 * `null`/`undefined`, thrown exceptions, `Math.PI` and `Math.round`.
 */
module Base {

  /** A value that may be `null` or `undefined` (`None`) or present (`Some`). */
  datatype Option<+T> = None | Some(value: T)

  /** The outcome of a call that either returns a value or throws.
      The game throws plain strings, so the thrown value is a message. */
  datatype Result<+T> = Ok(value: T) | Throw(message: string) {

    predicate IsFailure() {
      Throw?
    }

    function PropagateFailure<U>(): Result<U>
      requires Throw?
    {
      Throw(message)
    }

    function Extract(): T
      requires Ok?
    {
      value
    }
  }

  /** A JavaScript property that starts out `null`, may be set to
      `undefined`, or may hold a value. */
  datatype Slot<+T> = Null | Undefined | Held(value: T)

  /** `Math.PI`, the double closest to pi, as an exact rational. */
  const PI: real := 3.141592653589793

  /** `Math.round`: the nearest integer, with halves rounded towards
      positive infinity (so `Math.round(-2.5) == -2`). */
  function Round(x: real): (r: int)
    ensures x - 0.5 < r as real <= x + 0.5
  {
    (x + 0.5).Floor
  }

  /** Rounding an integral value gives it back. */
  lemma RoundIntegral(n: int)
    ensures Round(n as real) == n
  {
  }
}
