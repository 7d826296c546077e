/** Values shared by every part of the model. */
module Base {
  datatype Option<+T> = None | Some(value: T)

  datatype Result<+T, +E> = Ok(value: T) | Err(error: E)

  const U64_MAX: int := 0xFFFF_FFFF_FFFF_FFFF

  /** The unsigned 64-bit integers used for window ids, revisions and generations. */
  type U64 = n: int | 0 <= n <= U64_MAX

  /** `saturating_add(1)`: the counters stop at their maximum instead of wrapping. */
  function SaturatingSucc(n: U64): U64 {
    if n == U64_MAX then n else n + 1
  }
}
