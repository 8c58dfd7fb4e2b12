/** Natural numbers. */
module Naturals {

  function Smaller(a: nat, b: nat): (r: nat)
    ensures r <= a && r <= b && (r == a || r == b)
  {
    if a < b then a else b
  }
}
