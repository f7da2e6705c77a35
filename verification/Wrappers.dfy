/** The failure-carrying datatypes shared by the models. */
module Wrappers {

  datatype Option<+T> = None | Some(value: T)

  /** `Failure` stands for a thrown error (Swift) or a raised exception (Python). */
  datatype Result<+T> = Success(value: T) | Failure(error: string) {
    predicate IsFailure() {
      Failure?
    }

    function PropagateFailure<U>(): Result<U>
      requires Failure?
    {
      Failure(error)
    }

    function Extract(): T
      requires Success?
    {
      value
    }
  }
}
