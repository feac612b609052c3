/** What several modules share. */
module Basics {
  type byte = bv8

  /** A byte as a number. */
  type octet = n: nat | n < 256

  const TWO_64: nat := 0x1_0000_0000_0000_0000

  /** The block size of the cipher. */
  const BLOCK_BYTES: nat := 16

  const DIGITS := "0123456789"

  /** The decimal numeral of n. */
  function Decimal(n: nat): string {
    (if n < 10 then "" else Decimal(n / 10)) + [DIGITS[n % 10]]
  }

  /** kUtf8LenTbl: the length of a character by its first byte. */
  function OneCharLen(b: octet): (n: nat)
    ensures 1 <= n <= 4
  {
    if b < 0xc2 then 1 else if b < 0xe0 then 2 else if b < 0xf0 then 3 else if b < 0xf5 then 4 else 1
  }

  predicate IsContinuation(b: octet) { 0x80 <= b < 0xc0 }

  datatype Option<T> = None | Some(value: T)

  lemma Regroup<T>(a: seq<T>, b: seq<T>, c: seq<T>)
    ensures a + (b + c) == (a + b) + c
  {}
}
