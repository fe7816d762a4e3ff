/** Option and Result, for the error paths of the server's operations. */
module Wrappers {

  datatype Option<+T> = None | Some(value: T)

  datatype Result<+T, +E> = Success(value: T) | Failure(error: E)

  /** A map lookup that yields the value type's zero for a missing key, as a Go map read does. */
  function GetOrZero<K>(m: map<K, int>, k: K): int
  {
    if k in m then m[k] else 0
  }
}
