/** Option and Result, the two failure-carrying shapes the host code uses
    (Rust's `Option<T>` and `Result<T, Error>`). */
module Wrappers {

  datatype Option<+T> = None | Some(value: T)

  datatype Result<+T, +E> = Ok(value: T) | Err(error: E) {
    /** Rust's `Result::ok`: the value, dropping the error. */
    function ToOption(): Option<T> {
      match this
      case Ok(v) => Some(v)
      case Err(_) => None
    }
  }
}

/** Rust's fixed-width integers as ranges of mathematical integers. */
module MachineInts {

  const TWO_32: nat := 0x1_0000_0000
  const TWO_64: nat := 0x1_0000_0000_0000_0000
  const U64_MAX: nat := TWO_64 - 1

  type u32 = x: int | 0 <= x < TWO_32
  type u64 = x: int | 0 <= x < TWO_64
  type i32 = x: int | -0x8000_0000 <= x < 0x8000_0000
  type i64 = x: int | -0x8000_0000_0000_0000 <= x < 0x8000_0000_0000_0000

  /** `x as usize` on a 64-bit target: two's-complement reinterpretation. */
  function ToUsize(x: i64): (r: u64)
    ensures x >= 0 ==> r == x
    ensures x < 0 ==> r == x + TWO_64 && r >= TWO_64 / 2
  {
    if x >= 0 then x else x + TWO_64
  }
}
