/** Signed 64-bit machine integers, as int and time.Duration are in the source. */
module Int64 {
  const TWO_TO_63 := 0x8000_0000_0000_0000
  const TWO_TO_64 := 0x1_0000_0000_0000_0000

  /** The value of an integer in a signed 64-bit register. */
  function Wrap(x: int): (w: int)
    ensures -TWO_TO_63 <= w < TWO_TO_63
    ensures -TWO_TO_63 <= x < TWO_TO_63 ==> w == x
  {
    (x + TWO_TO_63) % TWO_TO_64 - TWO_TO_63
  }
}
