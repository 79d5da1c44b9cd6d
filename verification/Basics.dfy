/** Types and functions that several parts of the project share. */
module Basics {

  datatype Option<+T> = None | Some(value: T)

  newtype byte = x: int | 0 <= x < 256

  const UINT64_LIMIT: nat := 0x1_0000_0000_0000_0000

  type uint64 = n: nat | n < UINT64_LIMIT

  function Min(a: nat, b: nat): nat {
    if a < b then a else b
  }

  function Max(a: nat, b: nat): nat {
    if a < b then b else a
  }
}
