/** The machine types every layer shares: bytes and optional values. */
module Bytes {

  /** C's uint8_t. */
  type byte = x: int | 0 <= x < 256

  datatype Option<+T> = None | Some(value: T)

  /** The values of C's uint32_t lie below this bound. */
  const TWO_TO_32 := 0x1_0000_0000

  lemma ConcatAssociates<T>(a: seq<T>, b: seq<T>, c: seq<T>)
    ensures a + (b + c) == a + b + c
  {
  }
}
