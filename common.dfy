/**
 * Values shared by every part of the trace toolkit: Python's None as an
 * Option, and the exceptions the toolkit can raise as a Result.
 */
module Common {

  /** A nullable value: Python `None` or a present value. */
  datatype Option<+T> = None | Some(value: T)

  /**
   * The exceptions a run can end with. IOError carries the two messages the
   * line decoder raises; the Python built-in errors have no payload because
   * the toolkit never inspects them.
   */
  datatype Error =
    | UnknownSymbolFormat(lineno: nat, field: string)  // IOError, bad symbol expression
    | UnknownMicroOpFormat(lineno: nat, line: string)  // IOError, micro-op line of the wrong shape
    | IndexError     // a list index out of range
    | ValueError     // int() given a string that is not a number
    | KeyError       // a dictionary lookup of a missing key
    | AttributeError // a method called on None, or a missing attribute
    | TypeError      // a call with a missing argument
    | ZeroDivisionError // a division by zero

  /** The outcome of an operation that may raise. */
  datatype Result<+T> = Success(value: T) | Failure(error: Error)

  /** The outcome of a call made for its effect: it returns, or it raises. */
  datatype Outcome = Ok | Raised(error: Error)

  /** Python truthiness of an optional integer: None and 0 are false. */
  predicate TruthyInt(x: Option<int>) {
    x.Some? && x.value != 0
  }

  /** Python truthiness of an optional string: None and "" are false. */
  predicate TruthyStr(x: Option<string>) {
    x.Some? && x.value != ""
  }
}
