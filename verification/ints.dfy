/** Integer helpers shared by the detector, the ranking and the training
    rules. */
module Ints {

  /** The smaller of two integers. */
  function Min(a: int, b: int): int { if a <= b then a else b }
}
