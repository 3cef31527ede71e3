// Error categories and results shared by every component of libopenparasolid.
module Results {
  datatype ErrorCode =
    | Io
    | InvalidHeader
    | UnsupportedFormat
    | ResourceLimit
    | InvalidOptions
    | InvalidSchema
    | InvalidRecord
    | UnsupportedSchema

  datatype Result<+T> = Ok(value: T) | Err(error: ErrorCode) {
    predicate IsFailure() {
      Err?
    }

    function PropagateFailure<U>(): Result<U>
      requires Err?
    {
      Err(error)
    }

    function Extract(): T
      requires Ok?
    {
      value
    }
  }

  datatype Option<+T> = None | Some(value: T)
}
