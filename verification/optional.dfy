/** An optional value: the model's stand-in for a Python value that may be `None`. */
module Optional {

  datatype Option<+T> = None | Some(value: T)

  /** Python's truthiness test `not v` on an optional string: missing or empty. */
  predicate Present(v: Option<string>) {
    v.Some? && v.value != ""
  }

  /** How an f-string renders an optional string: `None` prints as the word None. */
  function Show(v: Option<string>): string {
    match v
    case Some(s) => s
    case None => "None"
  }
}
