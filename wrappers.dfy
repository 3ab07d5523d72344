/** Failure-carrying results shared by the whole model. The Python program signals
    failure by raising; every such raise is an `Err` carrying the exception kind. */
module Wrappers {

  datatype Option<+T> = None | Some(value: T)

  /** The exception kinds the modelled code can raise. */
  datatype PyError =
    | ValueError(msg: string)
    | IndexError(msg: string)
    | KeyError(msg: string)
    | AttributeError(msg: string)

  datatype Result<+T> = Ok(value: T) | Err(error: PyError) {
    predicate IsFailure() { Err? }

    function PropagateFailure<U>(): Result<U>
      requires Err?
    {
      Err(error)
    }

    function Extract(): T
      requires Ok?
    {
      value
    }
  }
}
