/** Option, Result and Outcome values for the places where the component reads an
    absent value or where JavaScript throws. */
module Wrappers {

  /** `None` stands for JavaScript's `undefined` or `null`. */
  datatype Option<+T> = None | Some(value: T)

  /** The two run-time errors the component can raise. */
  datatype TypeError =
    | ReduceOfEmptyArray   // `reduce` without an initial value on an empty array
    | PropertyOfNullish    // reading a property of `undefined` or `null`

  /** The value of an expression that either evaluates or throws. */
  datatype Result<+T> = Ok(value: T) | Err(error: TypeError)

  /** How a statement that returns nothing ends: normally or by throwing. */
  datatype Outcome = Pass | Fail(error: TypeError)
}
