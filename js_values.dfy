/**
 * The JavaScript values that option objects carry, as far as the login
 * verifier tells them apart: `undefined`, `null`, booleans, numbers,
 * strings and (opaque) objects. Numbers are integers here; NaN and
 * fractional numbers are not modelled, except as the invalid time that a
 * `Date` gives.
 */
module JsValues {

  datatype Value = Undefined | Null | Bool(b: bool) | Number(n: int) | Str(s: string) | Object

  /** JavaScript truthiness, as used by `if (x)`. */
  predicate Truthy(v: Value)
  {
    match v
    case Undefined => false
    case Null => false
    case Bool(b) => b
    case Number(n) => n != 0
    case Str(s) => s != ""
    case Object => true
  }

  /** A time as `new Date(x).getTime()` gives it: milliseconds, or NaN for a value that is not a valid date. */
  datatype Timestamp = Millis(ms: int) | InvalidDate

  /** JavaScript `a < b` on two times: false whenever either is NaN. */
  predicate Before(a: Timestamp, b: Timestamp)
  {
    a.Millis? && b.Millis? && a.ms < b.ms
  }

  /** `s === v` for a string `s`: only a string with the same characters is strictly equal. */
  predicate StrictEqualsString(s: string, v: Value)
  {
    v.Str? && v.s == s
  }

}
