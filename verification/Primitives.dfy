/** Value types shared by every module: machine integers, identifiers and results. */
module Primitives {

  const TWO64: int := 0x1_0000_0000_0000_0000
  const TWO128: int := 0x1_0000_0000_0000_0000_0000_0000_0000_0000
  const U128_MAX: int := TWO128 - 1

  type u128 = x: int | 0 <= x < TWO128

  /** 20-byte addresses and 32-byte hashes, read as big-endian numbers: the byte order
      the source compares them by is the numeric order. */
  type Address = nat
  type H256 = nat

  const ZERO_ADDRESS: Address := 0
  const ZERO_HASH: H256 := 0

  datatype Option<+T> = None | Some(value: T)

  datatype Result<+T, +E> = Ok(value: T) | Err(error: E)

  /** Release-mode `a + b` on u128: the carry is dropped. */
  function WrapAdd(a: u128, b: u128): (r: u128)
    ensures a + b < TWO128 ==> r == a + b
    ensures a + b >= TWO128 ==> r == a + b - TWO128
  {
    if a + b < TWO128 then a + b else a + b - TWO128
  }

  /** Release-mode `a - b` on u128: a borrow wraps around. */
  function WrapSub(a: u128, b: u128): (r: u128)
    ensures b <= a ==> r == a - b
    ensures a < b ==> r == a - b + TWO128
  {
    if b <= a then a - b else a - b + TWO128
  }

  function SaturatingSub(a: u128, b: u128): (r: u128)
    ensures r == if b <= a then a - b else 0
  {
    if a < b then 0 else a - b
  }

  function SaturatingAdd(a: u128, b: u128): (r: u128)
    ensures r == Min(a + b, U128_MAX)
  {
    if a + b > U128_MAX then U128_MAX else a + b
  }

  function Min(a: int, b: int): int {
    if a <= b then a else b
  }
}
