/** Failure-carrying results for the exceptions the analyser raises. */
module Exceptions {

  /** The exception classes the modelled code can raise. */
  datatype Error =
    | ValueError      // list.remove of a missing element, or a thread without edges
    | RDAOException   // detect_violation found more than two split entries
    | AttributeError  // extract_resource_name on a node kind it cannot handle

  datatype Option<+T> = None | Some(value: T)

  datatype Result<+T> = Ok(value: T) | Err(error: Error) {
    predicate IsFailure() { Err? }

    function PropagateFailure<U>(): Result<U>
      requires Err?
    {
      Err(error)
    }

    function Extract(): T
      requires Ok?
    {
      value
    }
  }
}
