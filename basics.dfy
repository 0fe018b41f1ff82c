/** Small definitions the scene models share. */
module Basics {

  /** A value that may be missing: Python's `None` or a value. */
  datatype Option<T> = None | Some(value: T)

  /** Python's `min` on two integers. */
  function Min(a: int, b: int): (m: int)
    ensures m <= a && m <= b && (m == a || m == b)
  {
    if a <= b then a else b
  }
}
