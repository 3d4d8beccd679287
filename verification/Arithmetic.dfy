/** Products and sums as named functions, which keeps them out of the solver's nonlinear reasoning. */
module Arithmetic {

  function Times(a: nat, b: nat): nat {
    a * b
  }

  function Product(a: int, b: int): int {
    a * b
  }

  function Sum(xs: seq<nat>): nat {
    if xs == [] then 0 else Sum(xs[..|xs| - 1]) + xs[|xs| - 1]
  }
}
