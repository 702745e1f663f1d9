/** Failure-carrying datatypes shared by every module of the model.
    The Python source signals its failures with built-in exceptions; the model
    returns them as values of `PyError` inside a `Result`. */
module Wrappers {

  datatype Option<+T> = None | Some(value: T)

  /** The Python exceptions the modelled code can raise. */
  datatype PyError =
    | IndexError          // subscript past the end of a list or string
    | KeyError            // dictionary lookup of an absent key
    | ValueError          // int() or float() of malformed text
    | UnboundLocalError   // read of a local variable that no branch assigned
    | AttributeError      // attribute access on None

  datatype Result<+T> = Ok(value: T) | Err(error: PyError) {
    predicate IsFailure() { Err? }

    function PropagateFailure<U>(): Result<U>
      requires Err?
    {
      Err(error)
    }

    function Extract(): T
      requires Ok?
    {
      value
    }
  }

  /** A computation that produces no value but may fail. */
  type Outcome = Result<()>
}
