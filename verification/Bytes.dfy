/** Bytes, the few ASCII codes the protocol code tests for, and decimal numerals. */
module Bytes {

  type Byte = b: int | 0 <= b < 256

  datatype Option<+T> = None | Some(value: T)

  const NUL: Byte := 0
  const LF: Byte := 10
  const CR: Byte := 13
  const PLUS: Byte := 43
  const MINUS: Byte := 45
  const ZERO: Byte := 48
  const CRLF: seq<Byte> := [CR, LF]

  predicate IsDigit(b: Byte) {
    ZERO <= b < ZERO + 10
  }

  /** The decimal numeral of n without leading zeros, most significant digit first. */
  function Decimal(n: nat): (s: seq<Byte>)
    ensures |s| >= 1
    ensures forall b :: b in s ==> IsDigit(b)
  {
    if n < 10 then [ZERO + n] else Decimal(n / 10) + [ZERO + n % 10]
  }

  function SignedDecimal(n: int): (s: seq<Byte>)
    ensures |s| >= 1
    ensures forall b :: b in s ==> IsDigit(b) || b == MINUS
  {
    if n < 0 then [MINUS] + Decimal(-n) else Decimal(n)
  }
}
