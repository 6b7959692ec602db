/**
 * Failure-carrying values shared by every module of the model.
 *
 * The labs signal failure by raising Python exceptions; the model returns
 * them instead, naming each by the exception class the source raises.
 */
module Wrappers {

  /** The Python exception classes that the modelled code raises. */
  datatype PyError =
    | EOFError
    | ValueError
    | RuntimeError
    | ArithmeticError
    | IndexError
    | KeyError
    | AttributeError
    | UnboundLocalError

  datatype Option<+T> = None | Some(value: T)

  datatype Result<+T> = Ok(value: T) | Err(error: PyError) {
    predicate IsFailure() { Err? }

    function PropagateFailure<U>(): Result<U>
      requires Err?
    {
      Err(error)
    }

    function Extract(): T
      requires Ok?
    {
      value
    }
  }

  /** A result with no value: the outcome of a call made for its effect. */
  datatype Outcome = Pass | Fail(error: PyError) {
    predicate IsFailure() { Fail? }

    function PropagateFailure(): Outcome
      requires Fail?
    {
      this
    }
  }
}
