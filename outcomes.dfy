/** Option and Result values shared by the scraper model, standing in for
    JavaScript's null and for a promise that resolves or rejects. */
module Outcomes {

  datatype Option<+T> = None | Some(value: T)

  /** A settled promise: it resolved with a value or rejected with an error. */
  datatype Result<+T, +E> = Success(value: T) | Failure(error: E)
}
