/** Arithmetic on natural numbers shared by the other modules. */
module Nats {

  /** The smaller of two counts, as Python's slice bound `s[:n]` uses it. */
  function Min(a: nat, b: nat): nat {
    if a <= b then a else b
  }
}
