/** Bytes as numbers. */
module Bytes {
  newtype u8 = x: int | 0 <= x < 256

  function Min(a: nat, b: nat): nat {
    if a < b then a else b
  }
}
