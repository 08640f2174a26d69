/** Small wrapper datatypes shared by the whole model. */
module Base {

  /** A value that may be absent: a JavaScript `undefined`, `NaN` or a thrown exception. */
  datatype Option<+T> = None | Some(value: T)

  /** The outcome of an operation that can fail with an error of type `E`. */
  datatype Result<+R, +E> = Success(value: R) | Failure(error: E)
}
