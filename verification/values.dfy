/**
  JSON field values as the page scripts see them: optional fields, JavaScript
  truthiness, the `x || fallback` defaulting idiom and `String(x)`.
  A missing field and a `null` field are both `None`.
 */
module Values {

  /** A JSON field that may be absent or null. */
  datatype Option<+T> = None | Some(value: T) {

    /** The field's value, or a default when it is absent. */
    function GetOr(default: T): T {
      match this
      case Some(v) => v
      case None => default
    }
  }

  /** The outcome of a script step that throws a TypeError on some inputs. */
  datatype Result<+T> = Ok(value: T) | TypeError

  /** A string field is truthy when it is present and not empty. */
  predicate Truthy(o: Option<string>) {
    o.Some? && o.value != ""
  }

  /** `o || fallback` on a string field. */
  function OrElse(o: Option<string>, fallback: string): string {
    if Truthy(o) then o.value else fallback
  }

  /** `a || b || null` on two string fields: the first truthy one, if any. */
  function FirstTruthy(a: Option<string>, b: Option<string>): Option<string> {
    if Truthy(a) then a else if Truthy(b) then b else None
  }

  /** `x || 0` on a numeric field: an absent value and a zero both give 0. */
  function NumOrZero(o: Option<int>): int {
    o.GetOr(0)
  }

  /** `String(x)` on a string field: an absent value prints as "undefined". */
  function Text(o: Option<string>): string {
    o.GetOr("undefined")
  }
}
