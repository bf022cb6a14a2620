/** Failure-carrying result types shared by the modules of this model. */
module Results {

  /** A value that may be absent; stands for a pointer argument that may be NULL. */
  datatype Option<+T> = None | Some(value: T)

  /** The outcome of an operation that the C code would abort with errx. */
  datatype Result<+T, +E> = Ok(value: T) | Err(error: E)
}
