/** Products of two unknowns, by counting, so that proofs can follow them step by step. */
module Arithmetic {
  /** w added up k times. */
  function Times(k: nat, w: nat): nat { if k == 0 then 0 else w + Times(k - 1, w) }
}
