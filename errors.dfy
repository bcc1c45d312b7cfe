/** The two ways one run of the annotation stage can stop early. */
module Errors {

  /** `ZeroDivision` stands for Python's ZeroDivisionError, `NotImplemented`
      for the NotImplementedError raised by the multi-frame branch. */
  datatype Error = ZeroDivision | NotImplemented

  /** The value of a step that either succeeds or raises one of the errors. */
  datatype Result<T> = Success(value: T) | Failure(error: Error)
}
