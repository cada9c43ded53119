/** Times are nanoseconds.  The API server keeps them in whole seconds: what is read back after a
    write is the time cut to the second. */
module Clock {
  const SECOND := 1_000_000_000

  /** The last whole second. */
  function Whole(t: int): (w: int)
    ensures t - SECOND < w <= t
    ensures w % SECOND == 0
    ensures t % SECOND == 0 ==> w == t
  {
    t - t % SECOND
  }
}
