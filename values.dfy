/** Values shared by the whole model: an optional value, and a loosely typed
    field of a product-search response, which may be missing, a string, or a
    list of strings. */
module Values {

  datatype Option<T> = None | Some(value: T) {
    /** The value, or `default` when there is none (Python's `dict.get(key, default)`). */
    function GetOr(default: T): T {
      match this
      case Some(v) => v
      case None => default
    }
  }

  /** A response field: missing (or null), a string, or a list of strings. */
  datatype Field = Absent | Str(s: string) | List(items: seq<string>)

  /** Python truthiness of a field: None, "" and [] are false. */
  predicate Truthy(f: Field) {
    match f
    case Absent => false
    case Str(s) => s != []
    case List(items) => items != []
  }

  /** The text a truthy field stands for: the string itself, or the first
      element of a list. */
  function Head(f: Field): string
    requires Truthy(f)
  {
    match f
    case Str(s) => s
    case List(items) => items[0]
  }
}
