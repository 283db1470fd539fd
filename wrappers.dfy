/** Small shared value types. */
module Wrappers {

  /** An optional value: a missing attribute, a missing key, an empty slot. */
  datatype Option<+T> = None | Some(value: T)

  function Min(a: int, b: int): (m: int)
    ensures m <= a && m <= b
    ensures m == a || m == b
  {
    if a <= b then a else b
  }
}
