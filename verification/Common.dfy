/** Datatypes shared by the model: optional values, failures, and the fate of a step. */
module Common {

  datatype Option<+T> = None | Some(value: T)

  datatype Result<+T, +E> = Ok(value: T) | Err(error: E)

  /** JavaScript truthiness of an optional string: missing and empty are both false. */
  predicate Truthy(s: Option<string>) {
    s.Some? && s.value != ""
  }

  /** A step on the host takes effect, throws, or is the last thing the process does. */
  datatype Fate = Done | Threw | Died

  method AnyFate() returns (s: Fate) {
    if * {
      s := Done;
    } else if * {
      s := Threw;
    } else {
      s := Died;
    }
  }
}
