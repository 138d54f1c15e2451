/** Failure-carrying datatypes used by every calculator.

    `Option` stands for a JavaScript value that may be `NaN`, `undefined` or
    `null`; `Result` stands for a calculator result object that may instead
    carry an `error` message. */
module Wrappers {

  datatype Option<+T> = None | Some(value: T)

  datatype Result<+T> = Success(value: T) | Failure(error: string)
}
