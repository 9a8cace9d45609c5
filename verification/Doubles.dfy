/**
 What the kernels take from double-precision numbers.
 */
module Doubles {

  /** The gap between 1 and the next double. */
  const EPSILON: real := 1.0 / 4503599627370496.0
}
