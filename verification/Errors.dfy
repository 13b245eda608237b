/** What the EventStream decoder can throw, and results that may be such an error. */
module Errors {

  datatype Error =
    | TruncatedFrame
    | InvalidUtf8
    | InvalidNameLength
    | TruncatedValue
    | InvalidValueLength
    | UnknownValueType(tag: int)
    | DuplicateHeader
    | PreludeChecksum
    | InvalidFrameLength
    | MessageChecksum
    | ForeignChunk
    | SourceReturn
    | Other(code: int)

  datatype Result<+T> = Ok(value: T) | Err(error: Error) {
    predicate IsFailure() {
      Err?
    }

    function PropagateFailure<U>(): Result<U>
      requires Err?
    {
      Err(error)
    }

    function Extract(): T
      requires Ok?
    {
      value
    }
  }
}
