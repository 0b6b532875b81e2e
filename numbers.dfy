/** Small arithmetic helpers shared by the clock and the waveform. */
module Numbers {
  /** The smaller of two integers; used for the last, possibly short, block or step. */
  function Min(a: int, b: int): int
  {
    if a <= b then a else b
  }
}
