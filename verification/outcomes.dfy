/** Option and Result types used for the library's null references and exceptions. */
module Outcomes {

  /** A value that may be a .NET null reference. */
  datatype Option<+T> = None | Some(value: T) {
    function GetOr(default: T): T {
      match this
      case Some(v) => v
      case None => default
    }
  }

  /** The exceptions the modelled members can throw, one constructor per kind. */
  datatype CsvError =
    | ObjectDisposed     // a member was called after Close or after a fatal error
    | FieldTooLong       // safety switch: more than 100,000 characters in one column
    | TooManyColumns     // safety switch: more than 100,000 columns in one record
    | ArgumentNull       // a required argument was null
    | UnknownDataType    // a column type name that none of the type tables knows
    | NotSupported       // e.g. a Format string on a column that is not a DateTime column
    | InvalidOperation   // e.g. a data reader without any declared column
    | IndexOutOfRange    // a column ordinal outside the declared columns
    | NullReference      // a member touched state that Close has already released

  /** Either a value or the exception a member throws instead. */
  datatype Result<+T> = Ok(value: T) | Err(error: CsvError) {
    predicate IsFailure() {
      Err?
    }

    function PropagateFailure<U>(): Result<U>
      requires Err?
    {
      Err(error)
    }

    function Extract(): T
      requires Ok?
    {
      value
    }
  }
}
