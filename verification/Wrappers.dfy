// Result types shared by the whole model.
module Wrappers {
  datatype Option<+T> = None | Some(value: T)

  datatype Result<+T, +E> = Ok(value: T) | Err(error: E)

  function Max(a: int, b: int): int {
    if a > b then a else b
  }

  /** Looks a key up the way a Go map does: an absent key reads as the zero value. */
  function Get<K, V>(m: map<K, V>, k: K, zero: V): V {
    if k in m then m[k] else zero
  }

  function Elements<T>(s: seq<T>): set<T> {
    set x | x in s
  }
}
