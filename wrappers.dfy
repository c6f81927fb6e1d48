/**
  Failure-compatible result types shared by every module.

  The source signals "nothing there" with Python's None and signals a
  parse failure by raising; the first becomes `Option`, the second `Result`.
*/
module Wrappers {

  /** A value that may be absent (Python's None). */
  datatype Option<+T> = None | Some(value: T) {

    /** The value, or `default` when absent. */
    function GetOr(default: T): T {
      match this
      case Some(v) => v
      case None => default
    }
  }

  /** Why a parse or a computation raised instead of returning. */
  datatype Error =
    | MissingElement(name: string)   // a required element is absent
    | MalformedXml                   // the XML text could not be parsed
    | NoneAccess                     // an attribute or length was taken of None
    | ZeroKeyLength                  // a modulo by a key of length zero

  /** The outcome of an operation that may raise. */
  datatype Result<+T> = Ok(value: T) | Fail(error: Error) {

    predicate IsFailure() {
      Fail?
    }

    function PropagateFailure<U>(): Result<U>
      requires Fail?
    {
      Fail(error)
    }

    function Extract(): T
      requires Ok?
    {
      value
    }
  }
}
