/** Bytes, shared by the file formats below. */
module Bytes {
  type byte = x: int | 0 <= x < 256

  datatype Option<T> = None | Some(value: T)

  function MinInt(a: int, b: int): int { if a < b then a else b }
}
