/** Option and Result, the model's stand-ins for Python's None and raised exceptions. */
module Wrappers {

  datatype Option<+T> = None | Some(value: T)

  /** The kinds of exception the modelled code raises or lets escape. */
  datatype Error =
    | NotFound(what: string)        // a file, directory, table or model is absent
    | MissingColumn(column: string) // pandas KeyError on a column lookup
    | InvalidValue(message: string) // ValueError raised by the code itself
    | TypeMismatch(message: string) // TypeError, e.g. comparing a date with a non-date
    | ImportFailed(message: string) // ImportError for an absent client library
    | Foreign(message: string)      // an exception raised inside a collaborator

  datatype Result<+T> = Ok(value: T) | Err(error: Error)
}
