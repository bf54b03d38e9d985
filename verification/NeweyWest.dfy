/** scripts/factor_correlation_study.py: the Newey-West statistic of a conditional mean. */
module NeweyWest {
  import opened Market
  import opened Reals
  import opened Sums

  // ----- the dense, zero-padded reading of the sparse dictionary

  /** The demeaned return of a fired row, zero on every other row. */
  function At(u: map<int, real>, t: int): real {
    if t in u then u[t] else 0.0
  }

  /** The zero-padded autocovariance sum at lag l over rows 0..n-1. */
  function Cov(u: map<int, real>, l: int, n: nat): real {
    Sum(Product(u, 0, l), 0, n)
  }

  /** C_0 + sum over 1..k of 2 w_l C_l with Bartlett weights w_l = 1 - l/(lag+1). */
  function Bartlett(u: map<int, real>, lag: nat, k: nat, n: nat): real {
    if k == 0 then Cov(u, 0, n)
    else Bartlett(u, lag, k - 1, n) + 2.0 * (1.0 - k as real / (lag + 1) as real) * Cov(u, k, n)
  }

  /** The sum of the lag+1 values that follow row s, and the sum of its squares over all the
      windows that meet the rows. */
  function Window(u: map<int, real>, s: int, k: nat): real {
    Sum(i => At(u, s + i), 0, k)
  }

  function WindowSquares(u: map<int, real>, m: nat, k: nat, n: nat): real {
    Sum(Squared(u, k), 0 - m, n)
  }

  /** The terms of the sums below. */
  function Product(u: map<int, real>, a: int, b: int): int -> real {
    s => At(u, s + a) * At(u, s + b)
  }

  function Against(u: map<int, real>, L: int, k: nat): int -> real {
    s => At(u, s + L) * Window(u, s, k)
  }

  function Squared(u: map<int, real>, k: nat): int -> real {
    s => Window(u, s, k) * Window(u, s, k)
  }

  ghost predicate Within(u: map<int, real>, n: nat) {
    forall t | t in u :: 0 <= t < n
  }

  // ----- the hidden sum of squares

  /** Products at distance a-b, summed over any range that covers the rows. */
  lemma {:induction false} ShiftedProducts(u: map<int, real>, a: nat, b: nat, m: nat, n: nat)
    requires Within(u, n) && b <= a <= m
    ensures Sum(Product(u, a, b), 0 - m, n) == Cov(u, a - b, n)
  {
    hide Product, Within, Sum;
    var f, g := Product(u, 0, a - b), Product(u, a, b);
    forall s | 0 - m <= s < n ensures g(s) == f(s + b) {
      ProductShifts(u, a, b, s);
    }
    SumShift(f, g, 0 - m, n, b);
    forall t | 0 - m + b <= t < n + b && !(0 <= t < n) ensures f(t) == 0.0 {
      NoProduct(u, a - b, n, t);
    }
    SumSupport(f, 0 - m + b, 0, n, n + b);
  }

  lemma ProductShifts(u: map<int, real>, a: nat, b: nat, s: int)
    ensures Product(u, a, b)(s) == Product(u, 0, a - b)(s + b)
  {
    assert s + b + (a - b) == s + a;
  }

  lemma NoProduct(u: map<int, real>, d: int, n: nat, t: int)
    requires Within(u, n) && !(0 <= t < n)
    ensures Product(u, 0, d)(t) == 0.0
  {
    assert t !in u;
  }

  function CovSum(u: map<int, real>, from: int, k: nat, n: nat): real {
    if k == 0 then 0.0 else CovSum(u, from, k - 1, n) + Cov(u, from - (k - 1), n)
  }

  lemma {:induction false} WindowGrows(u: map<int, real>, s: int, k: nat)
    ensures Window(u, s, k + 1) == Window(u, s, k) + At(u, s + k)
  {
  }

  lemma AgainstGrows(u: map<int, real>, L: int, k: nat, s: int)
    ensures Against(u, L, k + 1)(s) == Against(u, L, k)(s) + Product(u, L, k)(s)
  {
    WindowGrows(u, s, k);
  }

  lemma {:induction false} AgainstNothing(u: map<int, real>, L: int, m: nat, n: nat)
    ensures Sum(Against(u, L, 0), 0 - m, n) == 0.0
  {
    forall s | 0 - m <= s < n ensures Against(u, L, 0)(s) == 0.0 {
      assert Window(u, s, 0) == 0.0;
    }
    SumZero(Against(u, L, 0), 0 - m, n);
  }

  /** A value against the k values starting L rows before it. */
  lemma {:induction false} ValueAgainstWindow(u: map<int, real>, L: nat, k: nat, m: nat, n: nat)
    requires Within(u, n) && k <= L <= m
    ensures Sum(Against(u, L, k), 0 - m, n) == CovSum(u, L, k, n)
    decreases k
  {
    hide Against, Product, Cov;
    if k == 0 {
      AgainstNothing(u, L, m, n);
    } else {
      ValueAgainstWindow(u, L, k - 1, m, n);
      ShiftedProducts(u, L, k - 1, m, n);
      var f, g, h := Against(u, L, k), Against(u, L, k - 1), Product(u, L, k - 1);
      forall s | 0 - m <= s < n ensures f(s) == g(s) + h(s) {
        AgainstGrows(u, L, k - 1, s);
      }
      SumAdd(g, h, f, 0 - m, n);
    }
  }

  lemma SquareOfSum(x: real, y: real)
    ensures (x + y) * (x + y) == x * x + (2.0 * (y * x) + y * y)
  {
  }

  lemma SquaredGrows(u: map<int, real>, k: nat, s: int)
    ensures Squared(u, k + 1)(s) == Squared(u, k)(s) + (2.0 * Against(u, k, k)(s) + Product(u, k, k)(s))
  {
    WindowGrows(u, s, k);
    SquareOfSum(Window(u, s, k), At(u, s + k));
  }

  /** What one more value adds to the square of a window. */
  function Added(u: map<int, real>, L: nat): int -> real {
    s => 2.0 * Against(u, L, L)(s) + Product(u, L, L)(s)
  }

  lemma {:induction false} AddedSum(u: map<int, real>, L: nat, m: nat, n: nat)
    requires Within(u, n) && L <= m
    ensures Sum(Added(u, L), 0 - m, n) == 2.0 * CovSum(u, L, L, n) + Cov(u, 0, n)
  {
    hide Against, Product, Cov, CovSum, Sum;
    ValueAgainstWindow(u, L, L, m, n);
    ShiftedProducts(u, L, L, m, n);
    var g, h := Against(u, L, L), Product(u, L, L);
    var g2: int -> real := s => 2.0 * g(s);
    SumScale(2.0, g, g2, 0 - m, n);
    forall s | 0 - m <= s < n ensures Added(u, L)(s) == g2(s) + h(s) {
    }
    SumAdd(g2, h, Added(u, L), 0 - m, n);
    assert Sum(h, 0 - m, n) == Cov(u, 0, n);
    assert Sum(g2, 0 - m, n) == 2.0 * Sum(g, 0 - m, n);
    assert Sum(g, 0 - m, n) == CovSum(u, L, L, n);
  }

  /** Lengthening the windows by one value adds C_0 and twice all the autocovariances. */
  lemma {:induction false} WindowSquaresStep(u: map<int, real>, L: nat, m: nat, n: nat)
    requires Within(u, n) && L <= m
    ensures WindowSquares(u, m, L + 1, n) == WindowSquares(u, m, L, n) + (2.0 * CovSum(u, L, L, n) + Cov(u, 0, n))
  {
    AddedSum(u, L, m, n);
    hide Squared, Added, Cov, CovSum, Sum;
    forall s | 0 - m <= s < n ensures Squared(u, L + 1)(s) == Squared(u, L)(s) + Added(u, L)(s) {
      AddedTerm(u, L, s);
    }
    SumAdd(Squared(u, L), Added(u, L), Squared(u, L + 1), 0 - m, n);
  }

  lemma AddedTerm(u: map<int, real>, L: nat, s: int)
    ensures Squared(u, L + 1)(s) == Squared(u, L)(s) + Added(u, L)(s)
  {
    hide Squared, Against, Product;
    SquaredGrows(u, L, s);
  }

  lemma Distribute(x: real, y: real, z: real)
    ensures x * (y + z) == x * y + x * z
  {
  }

  /** (lag+1) times the Bartlett sum, with its weights cleared: sum of (c-l) C_l, doubled. */
  function Cleared(u: map<int, real>, c: nat, k: nat, n: nat): real {
    if k == 0 then Copies(c, Cov(u, 0, n))
    else Cleared(u, c, k - 1, n) + 2.0 * Copies(c - k, Cov(u, k, n))
  }

  function Copies(c: int, x: real): real {
    c as real * x
  }

  lemma ClearWeight(k: nat, c: nat, x: real)
    requires c > 0
    ensures c as real * (2.0 * (1.0 - k as real / c as real) * x) == 2.0 * ((c - k) as real * x)
  {
    var w := 1.0 - k as real / c as real;
    assert c as real * w == (c - k) as real;
    assert c as real * (2.0 * w * x) == 2.0 * ((c as real * w) * x);
  }

  lemma ClearTerm(before: real, sum: real, k: nat, c: nat, x: real)
    requires c > 0 && sum == before + 2.0 * (1.0 - k as real / c as real) * x
    ensures c as real * sum == c as real * before + 2.0 * Copies(c - k, x)
  {
    ClearWeight(k, c, x);
    Distribute(c as real, before, 2.0 * (1.0 - k as real / c as real) * x);
  }

  lemma ClearedOneMore(u: map<int, real>, lag: nat, k: nat, n: nat)
    ensures Bartlett(u, lag, 0, n) == Cov(u, 0, n)
    ensures k > 0 ==>
              Copies(lag + 1, Bartlett(u, lag, k, n))
              == Copies(lag + 1, Bartlett(u, lag, k - 1, n)) + 2.0 * Copies(lag + 1 - k, Cov(u, k, n))
  {
    hide Cov;
    if k > 0 {
      ClearTerm(Bartlett(u, lag, k - 1, n), Bartlett(u, lag, k, n), k, lag + 1, Cov(u, k, n));
    }
  }

  lemma {:induction false} ClearedBartlett(u: map<int, real>, lag: nat, k: nat, n: nat)
    ensures Copies(lag + 1, Bartlett(u, lag, k, n)) == Cleared(u, lag + 1, k, n)
  {
    hide Cov, Copies, Bartlett;
    ClearedOneMore(u, lag, k, n);
    if k > 0 {
      ClearedBartlett(u, lag, k - 1, n);
    }
  }

  lemma OneMore(c: int, x: real)
    ensures Copies(c + 1, x) == Copies(c, x) + x
  {
  }

  /** Raising c by one adds one of everything: C_0 and 2 C_1 .. 2 C_k. */
  lemma {:induction false} ClearedStep(u: map<int, real>, c: nat, k: nat, n: nat)
    ensures Cleared(u, c + 1, k, n) == Cleared(u, c, k, n) + Cov(u, 0, n) + 2.0 * CovUp(u, k, n)
  {
    hide Cov, Copies;
    if k > 0 {
      ClearedStep(u, c, k - 1, n);
    }
    OneMore(c - k, Cov(u, k, n));
  }

  function CovUp(u: map<int, real>, k: nat, n: nat): real {
    if k == 0 then 0.0 else CovUp(u, k - 1, n) + Cov(u, k, n)
  }

  /** C_L + ... + C_1 in either order. */
  lemma {:induction false} CovOrders(u: map<int, real>, L: nat, k: nat, n: nat)
    requires k <= L
    ensures CovSum(u, L, k, n) == CovUp(u, L, n) - CovUp(u, L - k, n)
  {
    if k > 0 {
      CovOrders(u, L, k - 1, n);
    }
  }

  /** The last weight is zero. */
  lemma {:induction false} ClearedLast(u: map<int, real>, L: nat, n: nat)
    requires L > 0
    ensures Cleared(u, L, L, n) == Cleared(u, L, L - 1, n)
  {
    hide Cov;
    assert (L - L) as real * Cov(u, L, n) == 0.0;
  }

  lemma {:induction false} ClearedIsSquares(u: map<int, real>, L: nat, m: nat, n: nat)
    requires Within(u, n) && L <= m
    ensures Cleared(u, L + 1, L, n) == WindowSquares(u, m, L + 1, n)
  {
    hide Cov, WindowSquares, CovSum, Cleared;
    WindowSquaresStep(u, L, m, n);
    CovOrders(u, L, L, n);
    ClearedStep(u, L, L, n);
    if L == 0 {
      EmptyWindows(u, m, n);
    } else {
      ClearedIsSquares(u, L - 1, m, n);
      ClearedLast(u, L, n);
    }
  }

  lemma {:induction false} EmptyWindows(u: map<int, real>, m: nat, n: nat)
    ensures WindowSquares(u, m, 0, n) == Cleared(u, 0, 0, n) == 0.0
  {
    forall s | 0 - m <= s < n ensures Squared(u, 0)(s) == 0.0 {
      assert Window(u, s, 0) == 0.0;
    }
    SumZero(Squared(u, 0), 0 - m, n);
  }

  /** The Bartlett-weighted sum is 1/(lag+1) times a sum of squared sliding-window sums, */
  lemma {:induction false} BartlettIsSquares(u: map<int, real>, lag: nat, n: nat)
    requires Within(u, n)
    ensures (lag + 1) as real * Bartlett(u, lag, lag, n) == WindowSquares(u, lag, lag + 1, n)
  {
    ClearedBartlett(u, lag, lag, n);
    ClearedIsSquares(u, lag, lag, n);
  }

  lemma SquaredNonNegative(u: map<int, real>, k: nat, lo: int, hi: int)
    requires lo <= hi
    ensures Sum(Squared(u, k), lo, hi) >= 0.0
  {
    var f := Squared(u, k);
    forall s | lo <= s < hi ensures f(s) >= 0.0 {
      SquareNonNegative(Window(u, s, k));
    }
    SumNonNegative(f, lo, hi);
  }

  /** and therefore never negative, whatever the rows, the returns and the lag. */
  lemma {:induction false} VarianceNonNegative(u: map<int, real>, lag: nat, n: nat)
    requires Within(u, n)
    ensures Bartlett(u, lag, lag, n) >= 0.0
  {
    BartlettIsSquares(u, lag, n);
    hide Bartlett;
    SquaredNonNegative(u, lag + 1, 0 - lag, n);
    PositiveFactor((lag + 1) as real, Bartlett(u, lag, lag, n));
  }

  lemma PositiveFactor(c: real, x: real)
    requires c > 0.0 && c * x >= 0.0
    ensures x >= 0.0
  {
    if x < 0.0 {
      ProductPositive(c, -x);
    }
  }

  // ----- the sparse computation

  ghost predicate Distinct(fired: seq<int>) {
    forall i, j | 0 <= i < j < |fired| :: fired[i] != fired[j]
  }

  predicate InRange(fired: seq<int>, n: nat) {
    forall i | 0 <= i < |fired| :: 0 <= fired[i] < n
  }

  /** Every condition of the cell holds on row p; an undefined factor holds nowhere. */
  predicate Fires(cell: seq<nat>, arrays: seq<seq<Option<bool>>>, p: nat) {
    forall c | 0 <= c < |cell| :: cell[c] < |arrays| && p < |arrays[cell[c]]| && arrays[cell[c]][p] == Some(true)
  }

  /** The rows the statistic is fed with: distinct, in range, and exactly those that fire. */
  function FiredPositions(cell: seq<nat>, arrays: seq<seq<Option<bool>>>, n: nat): (fired: seq<int>)
    ensures Distinct(fired) && InRange(fired, n)
    ensures forall p: nat :: p in fired <==> p < n && Fires(cell, arrays, p)
  {
    if n == 0 then [] else
    var before := FiredPositions(cell, arrays, n - 1);
    if Fires(cell, arrays, n - 1) then before + [n - 1] else before
  }

  /** The inner loop: products over the fired rows whose partner also fired. */
  function SparseCov(u: map<int, real>, fired: seq<int>, l: int): real {
    if fired == [] then 0.0 else
    var p := fired[|fired| - 1];
    SparseCov(u, fired[..|fired| - 1], l) + if p in u && p + l in u then u[p] * u[p + l] else 0.0
  }

  function Picked(u: map<int, real>, fired: seq<int>, l: int, t: int): real {
    if t in fired then At(u, t) * At(u, t + l) else 0.0
  }

  lemma {:induction false} SparseIsPicked(u: map<int, real>, fired: seq<int>, l: int, n: nat)
    requires Distinct(fired) && InRange(fired, n)
    ensures SparseCov(u, fired, l) == Sum(t => Picked(u, fired, l, t), 0, n)
    decreases |fired|
  {
    if fired == [] {
      SumZero(t => Picked(u, fired, l, t), 0, n);
    } else {
      var init, p := fired[..|fired| - 1], fired[|fired| - 1];
      SparseIsPicked(u, init, l, n);
      var f: int -> real := t => Picked(u, init, l, t);
      var g: int -> real := t => Picked(u, fired, l, t);
      assert p !in init && p in fired;
      forall t | 0 <= t < n && t != p ensures f(t) == g(t) {
        assert t in fired <==> t in init;
      }
      SumOneMore(f, g, p, 0, n);
    }
  }

  /** The sparse dictionary sum is the dense zero-padded autocovariance. */
  lemma {:induction false} SparseIsDense(u: map<int, real>, fired: seq<int>, l: int, n: nat)
    requires Distinct(fired) && InRange(fired, n)
    requires forall t :: t in u <==> t in fired
    ensures SparseCov(u, fired, l) == Cov(u, l, n)
  {
    SparseIsPicked(u, fired, l, n);
    var f: int -> real := t => Picked(u, fired, l, t);
    var g := Product(u, 0, l);
    forall t | 0 <= t < n ensures f(t) == g(t) {
      assert f(t) == At(u, t) * At(u, t + l);
      assert g(t) == At(u, t + 0) * At(u, t + l);
    }
    SumSame(f, g, 0, n);
  }

  // ----- nw_conditional_mean

  /** None stands for an infinite standard error. */
  datatype CellStats = CellStats(n: nat, mean: real, hitRate: real, se: Option<real>, t: real)

  function ValueSum(fired: seq<int>, rets: seq<real>): real
    requires InRange(fired, |rets|)
  {
    if fired == [] then 0.0
    else ValueSum(fired[..|fired| - 1], rets) + rets[fired[|fired| - 1]]
  }

  function Hits(fired: seq<int>, rets: seq<real>): nat
    requires InRange(fired, |rets|)
  {
    if fired == [] then 0
    else Hits(fired[..|fired| - 1], rets) + if rets[fired[|fired| - 1]] > 0.0 then 1 else 0
  }

  function Mean(fired: seq<int>, rets: seq<real>): real
    requires fired != [] && InRange(fired, |rets|)
  {
    ValueSum(fired, rets) / |fired| as real
  }

  function Demeaned(fired: seq<int>, rets: seq<real>, mu: real): (u: map<int, real>)
    requires InRange(fired, |rets|)
    ensures forall t :: t in u <==> t in fired
    ensures forall t | t in u :: u[t] == rets[t] - mu
  {
    map p | p in fired :: rets[p] - mu
  }

  method AutoCov(u: map<int, real>, fired: seq<int>, l: int) returns (cl: real)
    requires forall i | 0 <= i < |fired| :: fired[i] in u
    ensures cl == SparseCov(u, fired, l)
  {
    cl := 0.0;
    for i := 0 to |fired|
      invariant cl == SparseCov(u, fired[..i], l)
    {
      var p := fired[i];
      assert fired[..i + 1][..i] == fired[..i];
      if p + l in u {
        cl := cl + u[p] * u[p + l];
      }
    }
    assert fired[..|fired|] == fired;
  }

  /** Sum of (ret - mu)^2 over the fired rows: n^2 times the classical squared standard error. */
  function SquaredDeviations(fired: seq<int>, rets: seq<real>, mu: real): real
    requires InRange(fired, |rets|)
  {
    if fired == [] then 0.0 else
    var d := rets[fired[|fired| - 1]] - mu;
    SquaredDeviations(fired[..|fired| - 1], rets, mu) + d * d
  }

  lemma {:induction false} SparseAtZero(u: map<int, real>, fired: seq<int>, rets: seq<real>, mu: real)
    requires InRange(fired, |rets|)
    requires forall i | 0 <= i < |fired| :: fired[i] in u && u[fired[i]] == rets[fired[i]] - mu
    ensures SparseCov(u, fired, 0) == SquaredDeviations(fired, rets, mu)
    decreases |fired|
  {
    if fired != [] {
      SparseAtZero(u, fired[..|fired| - 1], rets, mu);
    }
  }

  /** With lag 0 the weighted, zero-padded sum is the plain sum of squared deviations over the
      fired rows. */
  lemma {:induction false} LagZeroIsClassical(fired: seq<int>, rets: seq<real>, mu: real)
    requires Distinct(fired) && InRange(fired, |rets|)
    ensures Bartlett(Demeaned(fired, rets, mu), 0, 0, |rets|) == SquaredDeviations(fired, rets, mu)
  {
    hide SparseCov, Cov, SquaredDeviations;
    var u := Demeaned(fired, rets, mu);
    SparseIsDense(u, fired, 0, |rets|);
    SparseAtZero(u, fired, rets, mu);
  }

  method NwConditionalMean(sqrt: real -> real, fired: seq<int>, rets: seq<real>, lag: nat)
    returns (r: CellStats)
    requires IsSqrt(sqrt) && Distinct(fired) && InRange(fired, |rets|)
    ensures r.n == |fired|
    ensures fired == [] ==> r == CellStats(0, 0.0, 0.0, None, 0.0)
    ensures fired != [] ==> r.mean == Mean(fired, rets) && r.hitRate == Hits(fired, rets) as real / |fired| as real
    ensures |fired| == 1 ==> r.se.None? && r.t == 0.0
    ensures |fired| >= 2 ==>
              var v := Bartlett(Demeaned(fired, rets, r.mean), lag, lag, |rets|);
              && (r.se.None? <==> v == 0.0)
              && (r.se.Some? ==> r.se.value > 0.0
                                 && r.se.value * r.se.value * (|fired| * |fired|) as real == v
                                 && r.t * r.se.value == r.mean)
              && (r.se.None? ==> r.t == 0.0)
    ensures |fired| >= 2 && lag == 0 ==>
              var v := SquaredDeviations(fired, rets, r.mean);
              && (r.se.None? <==> v == 0.0)
              && (r.se.Some? ==> r.se.value * r.se.value * (|fired| * |fired|) as real == v)
  {
    hide Bartlett, SparseCov, IsSqrt, SquaredDeviations;
    var m := |fired|;
    if m == 0 {
      return CellStats(0, 0.0, 0.0, None, 0.0);
    }
    var mu := Mean(fired, rets);
    var hit := Hits(fired, rets) as real / m as real;
    if m == 1 {
      OneHit(fired, rets);
      return CellStats(1, mu, if rets[fired[0]] > 0.0 then 1.0 else 0.0, None, 0.0);
    }
    var u := Demeaned(fired, rets, mu);
    var variance := Variance(u, fired, |rets|, lag);
    VarianceNonNegative(u, lag, |rets|);
    LagZeroIsClassical(fired, rets, mu);
    if variance > 0.0 {
      var se := sqrt(variance) / m as real;
      StandardError(sqrt, variance, m);
      return CellStats(m, mu, hit, Some(se), mu / se);
    }
    r := CellStats(m, mu, hit, None, 0.0);
  }

  lemma OneHit(fired: seq<int>, rets: seq<real>)
    requires |fired| == 1 && InRange(fired, |rets|)
    ensures Hits(fired, rets) == if rets[fired[0]] > 0.0 then 1 else 0
  {
    assert fired[..0] == [];
  }

  lemma StandardError(sqrt: real -> real, v: real, m: nat)
    requires IsSqrt(sqrt) && v > 0.0 && m > 0
    ensures var se := sqrt(v) / m as real;
            se > 0.0 && se * se * (m * m) as real == v
  {
    var root, k := sqrt(v), m as real;
    assert root > 0.0;
    var se := root / k;
    assert se * k == root;
    assert (m * m) as real == k * k;
    assert se * se * (k * k) == (se * k) * (se * k);
  }

  /** The accumulation over lags. */
  method Variance(u: map<int, real>, fired: seq<int>, n: nat, lag: nat) returns (v: real)
    requires Distinct(fired) && InRange(fired, n)
    requires forall t :: t in u <==> t in fired
    ensures v == Bartlett(u, lag, lag, n)
  {
    hide SparseCov, Cov, Distinct;
    v := AutoCov(u, fired, 0);
    SparseIsDense(u, fired, 0, n);
    for l := 1 to lag + 1
      invariant v == Bartlett(u, lag, l - 1, n)
    {
      var w := 1.0 - l as real / (lag + 1) as real;
      var cl := AutoCov(u, fired, l);
      SparseIsDense(u, fired, l, n);
      v := v + 2.0 * w * cl;
    }
  }
}
