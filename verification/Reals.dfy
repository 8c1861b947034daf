/** Arithmetic on reals that several components share. */
module Reals {
  function Abs(x: real): real { if x < 0.0 then -x else x }

  function Min(x: real, y: real): real { if x <= y then x else y }

  function Max(x: real, y: real): real { if x >= y then x else y }

  /** A product, by a name that proofs can hide. */
  function Times(x: real, y: real): real { x * y }
}
