/** Go's int on a 64-bit machine. */
module Int64 {
  const MAX_INT: int := 0x7FFF_FFFF_FFFF_FFFF

  /** The value of an operation whose exact result is `x`. */
  function Wrap(x: int): int { (x + 0x8000_0000_0000_0000) % 0x1_0000_0000_0000_0000 - 0x8000_0000_0000_0000 }

  lemma WrapInRange(x: int)
    requires -MAX_INT - 1 <= x <= MAX_INT
    ensures Wrap(x) == x
  {
  }

  function Min(a: int, b: int): int { if a < b then a else b }

  function Max(a: int, b: int): int { if a > b then a else b }
}
