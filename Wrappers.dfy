/** Optional values, and the Python exceptions that the modelled code lets
    escape, as values. */
module Wrappers {

  datatype Option<+T> = None | Some(value: T)

  /** The exceptions some modelled operation raises on some input. */
  datatype PyError =
    | KeyError        // a label missing from a pandas table
    | IndexError      // `[-1]` on an empty list
    | NameError       // a name that is not bound in the source
    | AttributeError  // an attribute looked up on `None`
    | TypeError       // wrong number of arguments to `date(...)`
    | ValueError      // `int(...)` of a non-number, or an impossible date
    | RecursionError  // a call that keeps calling itself
    | OverflowError   // a number outside a C `int` passed to `date(...)`

  /** The value of an expression, or the exception it raised. */
  datatype Result<+T> = Ok(value: T) | Raised(error: PyError)

  /** How a statement that returns nothing ended. */
  datatype Outcome = Done | Failed(error: PyError)
}
