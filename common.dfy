/** Small value types shared by every module of the model. */
module Common {

  /** A value that may be absent: a nullable column, a missing query parameter. */
  datatype Option<+T> = None | Some(value: T)

  /** The outcome of a form validation or lookup that can fail with an error. */
  datatype Result<+T, +E> = Success(value: T) | Failure(error: E)

  function Min(a: int, b: int): (m: int)
    ensures m <= a && m <= b && (m == a || m == b)
  {
    if a <= b then a else b
  }

  function Max(a: int, b: int): (m: int)
    ensures m >= a && m >= b && (m == a || m == b)
  {
    if a <= b then b else a
  }
}
