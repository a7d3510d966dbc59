/** Small shared vocabulary: optional values, as JavaScript's `undefined`/`null`
    and Python's `None` are modelled throughout. */
module Common {

  datatype Option<+T> = None | Some(value: T) {
    function GetOr(default: T): T {
      match this
      case Some(v) => v
      case None => default
    }
  }

  /** JavaScript/Python truthiness of an optional string: absent, null and ""
      are falsy, every other string is truthy. */
  predicate TruthyText(s: Option<string>) {
    s.Some? && s.value != ""
  }
}
