/** The values a configuration store holds and the errors its operations raise. */
module JsonValue {

  /** A stored configuration value: what a parsed JSON file can contain, with
      numbers restricted to integers and without arrays. */
  datatype Value =
    | Null
    | Bool(b: bool)
    | Num(n: int)
    | Str(s: string)
    | Obj(fields: map<string, Value>)

  /** JavaScript truthiness: `null`, `false`, `0` and `""` are falsy; every
      object, even an empty one, is truthy. */
  predicate Truthy(v: Value) {
    match v
    case Null => false
    case Bool(b) => b
    case Num(n) => n != 0
    case Str(s) => s != ""
    case Obj(_) => true
  }

  /** A value that `get` reports as not configured: falsy, and not literally `false`. */
  predicate Missing(v: Value) {
    !Truthy(v) && v != Bool(false)
  }

  datatype Option<T> = None | Some(value: T)

  datatype Error =
    /** `no configuration for "<key>" found`, thrown by `get`. */
    | NotFound(key: string)
    /** A property read on `undefined` or `null`, or a property write on a
        string, number or boolean (the compiled module runs in strict mode). */
    | TypeError
    /** `failed to load config file <file>`, thrown by `load`. */
    | LoadFailed(file: string)

  datatype Result<T> = Ok(value: T) | Err(error: Error)

  /** What a call that returns nothing of interest ends with: normally, or by throwing. */
  datatype Outcome = Pass | Fail(error: Error)
}
