/** Deviations from the mean of the first n values, and their inner products: the common ground of
    the two correlation routines. */
module Deviations {
  import opened Sums

  function Value(xs: seq<real>): int -> real {
    t => if 0 <= t < |xs| then xs[t] else 0.0
  }

  function Mean(f: int -> real, n: nat): real
    requires n > 0
  {
    Sum(f, 0, n) / n as real
  }

  function Dev(f: int -> real, n: nat): int -> real
    requires n > 0
  {
    t => f(t) - Mean(f, n)
  }

  function CoDev(f: int -> real, g: int -> real, n: nat): int -> real
    requires n > 0
  {
    t => Dev(f, n)(t) * Dev(g, n)(t)
  }

  function CoSum(f: int -> real, g: int -> real, n: nat): real
    requires n > 0
  {
    Sum(CoDev(f, g, n), 0, n)
  }

  lemma {:induction false} CoSumSelf(f: int -> real, n: nat)
    requires n > 0
    ensures CoSum(f, f, n) >= 0.0
  {
    hide Dev;
    SquaresNonNegative(Dev(f, n), CoDev(f, f, n), n);
    SumNonNegative(CoDev(f, f, n), 0, n);
  }

  lemma {:induction false} CoSumCauchy(f: int -> real, g: int -> real, n: nat)
    requires n > 0
    ensures CoSum(f, g, n) * CoSum(f, g, n) <= CoSum(f, f, n) * CoSum(g, g, n)
  {
    hide Dev;
    CauchySchwarz(Dev(f, n), Dev(g, n), CoDev(f, g, n), CoDev(f, f, n), CoDev(g, g, n), n);
  }
}
