/** Arithmetic shared by the real-valued models. */
module Reals {
  /** Distribution over a sum that has a name of its own. */
  lemma Distribute(x: real, y: real, z: real, sum: real)
    requires sum == y + z
    ensures x * sum == x * y + x * z
  {}
}
