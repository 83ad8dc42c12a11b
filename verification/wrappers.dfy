/** Failure-carrying datatypes shared by the model: a C pointer that may be
    NULL, or an out-parameter that may be left unwritten, becomes an Option. */
module Wrappers {

  datatype Option<+T> = None | Some(value: T)

  function Min(a: int, b: int): int {
    if a <= b then a else b
  }
}
