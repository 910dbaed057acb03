/** The Python values that flow through the core: decoded JSON and front-matter metadata. */
module Values {

  /**
   * A JSON-like Python value. Numbers are `real` (Python's `int` and `float`
   * alike); front-matter dates and other objects are not distinguished from strings.
   */
  datatype Value =
    | Null
    | Bool(b: bool)
    | Num(n: real)
    | Str(s: string)
    | List(items: seq<Value>)
    | Dict(fields: map<string, Value>)

  /** A rendered Markdown file's metadata dictionary. */
  type Metadata = map<string, Value>

  /** Python truthiness: `None`, `False`, zero and empty containers are falsy. */
  predicate Truthy(v: Value) {
    match v
    case Null => false
    case Bool(b) => b
    case Num(n) => n != 0.0
    case Str(s) => s != []
    case List(xs) => xs != []
    case Dict(m) => m != map[]
  }
}
