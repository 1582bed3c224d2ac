/** Failure-compatible wrappers: Option stands for a Java reference that may be
    null, Result for a call that may throw. */
module Wrappers {

  datatype Option<+T> = None | Some(value: T)

  /** Map.get: the value stored under k, or None (Java's null) when there is none. */
  function Get<K, V>(m: map<K, V>, k: K): Option<V>
  {
    if k in m then Some(m[k]) else None
  }

  datatype Result<+R, +E> = Success(value: R) | Failure(error: E)
}
