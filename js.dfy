/** Values shared by every part of the model: optional JavaScript values,
    the {status, code, message} objects the services throw, and a result
    type that stands for "returns a value or throws". */
module Js {

  /** A JavaScript value that may be undefined or null (None). */
  datatype Option<+T> = None | Some(value: T)

  /** A thrown object. Each property may be absent; only these three are
      ever read by the code that catches them. */
  datatype Thrown = Thrown(status: Option<int>, code: Option<string>, message: Option<string>)

  /** The outcome of a call that either returns a value or throws. */
  datatype Result<+T> = Ok(value: T) | Err(error: Thrown)

  /** A thrown object carrying all three properties. */
  function Fail(status: int, code: string, message: string): Thrown
  {
    Thrown(Some(status), Some(code), Some(message))
  }

  /** `new Error(message)`: a message and nothing else. */
  function PlainError(message: string): Thrown
  {
    Thrown(None, None, Some(message))
  }

  /** JavaScript truthiness of an optional number: undefined, null and 0 are falsy. */
  predicate TruthyInt(x: Option<int>)
  {
    x.Some? && x.value != 0
  }

  /** JavaScript truthiness of an optional string: undefined, null and "" are falsy. */
  predicate TruthyString(x: Option<string>)
  {
    x.Some? && x.value != ""
  }
}
