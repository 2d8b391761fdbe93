/** Bytes as numbers, digits, and the largest 64-bit number. */
module Numbers {

  type Byte = x: int | 0 <= x < 256

  const ULLONG_MAX: nat := 0xFFFF_FFFF_FFFF_FFFF

  predicate IsNum(c: char) { '0' <= c <= '9' }

  function Digit(c: char): nat
    requires IsNum(c)
  {
    c as int - '0' as int
  }
}
