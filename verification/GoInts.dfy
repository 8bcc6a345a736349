/** Go's int64: range and wrap-around. */
module GoInts {
  const MIN64 := -0x8000_0000_0000_0000
  const MAX64 := 0x7FFF_FFFF_FFFF_FFFF

  predicate Int64(n: int) { MIN64 <= n <= MAX64 }

  /** Go's int64 arithmetic. */
  function Wrap64(n: int): (w: int)
    ensures Int64(w) && (Int64(n) ==> w == n)
  {
    (n - MIN64) % 0x1_0000_0000_0000_0000 + MIN64
  }
}
