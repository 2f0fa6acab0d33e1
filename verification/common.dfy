/** Values shared by every report: optional values, the error values the
    reports hand to their completion callback, and a failure-compatible
    result type so that a report reads as a chain of `:-` steps. */
module Common {

  datatype Option<+T> = None | Some(value: T)

  /** The error values of the three reports. */
  datatype Failure =
    | Text(msg: string)
      // a plain string handed to the callback
    | Wrapped(msg: string)
      // an object `{error: msg}` handed to the callback
    | InvalidPair(index: nat)
      // 'invalid currency pair: ' followed by the JSON of the request's pair at `index`
    | InvalidTime(field: string, raw: string)
      // 'invalid <field>: <raw> is invalid at: …' for an unparseable timestamp

  datatype Result<+T> = Ok(value: T) | Err(error: Failure) {

    predicate IsFailure() {
      Err?
    }

    function PropagateFailure<U>(): Result<U>
      requires Err?
    {
      Err(error)
    }

    function Extract(): T
      requires Ok?
    {
      value
    }
  }

  /** JavaScript truthiness of an optional string: absent and "" are falsy. */
  predicate Truthy(s: Option<string>) {
    s.Some? && s.value != ""
  }
}
