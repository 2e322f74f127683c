/** Small value wrappers shared by every module of the model.

- Option<T> stands for a Python value that may be None.
- Slot stands for what `d.get(key)` can see in a Python dict whose values are
  strings: the key is missing, the key maps to None, or it maps to a string.
 */
module Wrappers {

  /** The conventional Some/None datatype, used for nullable values. */
  datatype Option<+T> = None | Some(value: T) {

    /** The value, or `default` when there is none. */
    function GetOr(default: T): T {
      match this
      case Some(v) => v
      case None => default
    }
  }

  /** Python truthiness of an optional string: None and "" are falsy. */
  predicate Truthy(o: Option<string>) {
    o.Some? && o.value != ""
  }

  /** Python's `o or fallback` for an optional string. */
  function OrElse(o: Option<string>, fallback: string): (r: string)
    ensures Truthy(o) ==> r == o.value
    ensures !Truthy(o) ==> r == fallback
  {
    if Truthy(o) then o.value else fallback
  }

  /** One key of a record-like Python dict whose values are strings. */
  datatype Slot = Absent | Null | Str(s: string) {

    /** `d.get(key)`: None both for a missing key and for a None value. */
    function Get(): Option<string> {
      match this
      case Str(s) => Some(s)
      case _ => None
    }

    /** `d.get(key, default)`: the default only replaces a missing key. */
    function GetDefault(default: string): Option<string> {
      match this
      case Absent => Some(default)
      case Null => None
      case Str(s) => Some(s)
    }

    /** `str(d.get(key, default))`: a None value prints as "None". */
    function StrOf(default: string): (r: string)
      ensures Str? ==> r == s
      ensures Absent? ==> r == default
      ensures Null? ==> r == "None"
    {
      match this
      case Absent => default
      case Null => "None"
      case Str(s) => s
    }

    /** Python truthiness of `d.get(key)`. */
    predicate IsTruthy() {
      Str? && s != ""
    }
  }
}
