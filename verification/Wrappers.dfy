/** Optional values, and the error results of the service and of its file store. */
module Wrappers {

  datatype Option<+T> = None | Some(value: T)

  /** What a call can fail with. Message texts are not modelled. */
  datatype Error =
    | NotFound       // no file with that id
    | AlreadyExists  // a create hit an id that is in use
    | InvalidId      // blank id, or one that holds a path separator or ".."
    | Rejected       // a field that validation refuses, or a forbidden transition
    | Unsupported    // a maintenance job nobody knows

  datatype Result<+T> = Ok(value: T) | Err(error: Error) {

    predicate IsFailure() {
      Err?
    }

    function PropagateFailure<U>(): (r: Result<U>)
      requires Err?
    {
      Err(error)
    }

    function Extract(): T
      requires Ok?
    {
      value
    }
  }
}
