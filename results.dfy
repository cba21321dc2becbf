/** Failure-compatible results shared by every module of the model. The error
    constructors stand for the Python exceptions that the modelled code raises
    or lets propagate. */
module Results {

  /** The exceptions the modelled code can end with. */
  datatype Error =
    | JsonDecodeError(reason: string)   // json.loads rejects its input
    | TypeError(reason: string)         // an operation applied to a value of the wrong type
    | KeyError(key: string)             // a dictionary lookup of a missing key
    | AttributeError(name: string)      // an attribute read on an object that lacks it
    | ValueError(reason: string)        // raised explicitly with a message
    | TimeoutError(reason: string)      // raised by the refresh polling loop
    | NotFound(reason: string)          // "<file> not found in any parent directory"

  datatype Option<+T> = None | Some(value: T)

  datatype Result<+T> = Ok(value: T) | Err(error: Error) {
    predicate IsFailure() {
      Err?
    }

    function PropagateFailure<U>(): Result<U>
      requires Err?
    {
      Err(error)
    }

    function Extract(): T
      requires Ok?
    {
      value
    }
  }
}
