/**
 * The few JavaScript value shapes the page logic branches on: values that
 * may be null or undefined, the result of `Number(x)`, and awaited calls to
 * services that may reject.
 */
module Js {

  /** A value that may be null/undefined (`None`) or present (`Some`). */
  datatype Option<+T> = None | Some(value: T)

  /** The outcome of awaiting a service call: it either rejected or returned a value. */
  datatype Outcome<+T> = Threw | Returned(value: T)

  /** What `Number(x)` yields: NaN, an infinity, or a finite number. */
  datatype JsNumber = NaN | Infinity(negative: bool) | Finite(value: real)

  /** A coordinate field: null/undefined, or a value whose `Number(..)` conversion is `number`. */
  datatype Field = Absent | Present(number: JsNumber)

  function Abs(x: real): (r: real)
    ensures r >= 0.0
    ensures r == x || r == -x
  {
    if x < 0.0 then -x else x
  }

  /** `isNaN(Number(x))` */
  predicate IsNaN(n: JsNumber) {
    n.NaN?
  }

  /** `Math.abs(Number(x)) > bound`; every comparison with NaN is false, every infinity exceeds a finite bound. */
  predicate AbsExceeds(n: JsNumber, bound: real) {
    match n
    case NaN => false
    case Infinity(_) => true
    case Finite(v) => Abs(v) > bound
  }
}
