/** Optional values and results with an error. */
module Outcomes {
  datatype Option<+T> = None | Some(value: T)

  datatype Result<+T, +E> = Success(value: T) | Failure(error: E)

  type u32 = x: nat | x < 0x1_0000_0000

  /** A length cast to 32 bits keeps its low bits only. */
  function AsU32(n: nat): (r: u32) {
    n % 0x1_0000_0000
  }
}
