/** Failure-carrying values shared by every module of the event client model. */
module Results {

  /** An optional value; `None` stands for Go's nil or "absent". */
  datatype Option<+T> = None | Some(value: T)

  /** Either a value or the error that prevented it, as Go's `(T, error)` pairs. */
  datatype Result<+T, +E> = Success(value: T) | Failure(error: E)
}
