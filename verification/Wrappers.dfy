/** The few types that every other module uses. */
module Wrappers {

  datatype Option<+T> = None | Some(value: T)

  const TWO_32: int := 0x1_0000_0000
  const TWO_64: int := 0x1_0000_0000_0000_0000

  type byte = n: nat | n < 0x100
  type u32 = n: nat | n < TWO_32
  type u64 = n: nat | n < TWO_64

  /** The number that four bytes make, the one that counts most first. */
  function Number(a: nat, b: nat, c: nat, d: nat): nat {
    0x100_0000 * a + 0x1_0000 * b + 0x100 * c + d
  }

  /** A flag shared between threads. */
  class Flag {
    var raised: bool
  }
}
