/** Optional values, and the exceptions the handlers raise, as values. */
module Outcome {

  datatype Option<+T> = None | Some(value: T)

  /** Why a handler raised instead of drawing. */
  datatype Fault =
    | MissingKey(key: string)   // KeyError on a message field
    | IllTyped(key: string)     // a field whose value is not of the kind the handler computes with
    | IndexOutOfRange           // IndexError placing the heading spike
    | EmptyBins                 // fewer samples than ring pixels: the bin means are NaN

  /** A handler's outcome: the new pixel buffer, or the exception it raised. */
  datatype Result<+T> = Ok(value: T) | Raised(fault: Fault) {

    predicate IsFailure() {
      Raised?
    }

    function PropagateFailure<U>(): Result<U>
      requires Raised?
    {
      Raised(fault)
    }

    function Extract(): T
      requires Ok?
    {
      value
    }
  }
}
