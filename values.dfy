/** Values shared by the client model: optional values, results with an
    error, and the JSON values that travel as tool arguments and schemas. */
module Values {

  /** Python's `None` or a present value. */
  datatype Option<+T> = None | Some(value: T)

  /** A computation that either returns a value or raises an exception,
      described by `error`. */
  datatype Result<+T, +E> = Success(value: T) | Failure(error: E) {
    predicate IsFailure() { Failure? }
    function PropagateFailure<U>(): Result<U, E> requires Failure? { Failure(error) }
    function Extract(): T requires Success? { value }
  }

  /** A decoded JSON document. Numbers are kept as integers: the client only
      carries them from the model's reply to the tool server. */
  datatype Json =
    | JNull
    | JBool(b: bool)
    | JNumber(n: int)
    | JString(s: string)
    | JArray(items: seq<Json>)
    | JObject(fields: map<string, Json>)

  /** An opaque handle to one open tool-server session. */
  datatype Session = Session(id: nat)
}
