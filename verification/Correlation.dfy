/** scripts/blockstats.py: Pearson correlations of equal-length streams and the two measures of
    effective bets. The square root is a parameter. */
module Correlation {
  import opened Market
  import opened Reals
  import opened Sums
  import opened Deviations

  /** k streams of one common, positive length. */
  ghost predicate Panel(streams: seq<seq<real>>, len: nat) {
    len > 0 && forall i | 0 <= i < |streams| :: |streams[i]| == len
  }

  function Entry(m: seq<seq<real>>, i: int, t: int): real {
    if 0 <= i < |m| && 0 <= t < |m[i]| then m[i][t] else 0.0
  }

  function Stream(streams: seq<seq<real>>, i: int): int -> real {
    t => Entry(streams, i, t)
  }

  function Spread(sqrt: real -> real, streams: seq<seq<real>>, len: nat, i: int): real
    requires len > 0
  {
    sqrt(CoSum(Stream(streams, i), Stream(streams, i), len))
  }

  /** A constant stream correlates with itself only. */
  function Corr(sqrt: real -> real, streams: seq<seq<real>>, len: nat, i: int, j: int): real
    requires len > 0
  {
    Cellwise(Spread(sqrt, streams, len, i), Spread(sqrt, streams, len, j),
             CoSum(Stream(streams, i), Stream(streams, j), len), i == j)
  }

  function Cellwise(si: real, sj: real, cov: real, diagonal: bool): real {
    if si == 0.0 || sj == 0.0 then if diagonal then 1.0 else 0.0 else Ratio(cov, si * sj)
  }

  ghost predicate IsCorrelation(sqrt: real -> real, streams: seq<seq<real>>, len: nat, R: seq<seq<real>>)
    requires len > 0
  {
    && |R| == |streams|
    && (forall i | 0 <= i < |R| :: |R[i]| == |R|)
    && (forall i, j | 0 <= i < |R| && 0 <= j < |R| :: R[i][j] == Corr(sqrt, streams, len, i, j))
  }

  method CorrelationMatrix(sqrt: real -> real, streams: seq<seq<real>>, len: nat) returns (R: seq<seq<real>>)
    requires Panel(streams, len)
    ensures IsCorrelation(sqrt, streams, len, R)
  {
    hide CoSum, Mean;
    var k := |streams|;
    var sds := [];
    for i := 0 to k
      invariant |sds| == i && forall n | 0 <= n < i :: sds[n] == Spread(sqrt, streams, len, n)
    {
      sds := sds + [sqrt(CoSum(Stream(streams, i), Stream(streams, i), len))];
    }
    R := [];
    for i := 0 to k
      invariant |R| == i
      invariant forall n | 0 <= n < i :: |R[n]| == k
      invariant forall n, j | 0 <= n < i && 0 <= j < k :: R[n][j] == Corr(sqrt, streams, len, n, j)
    {
      var row := [];
      for j := 0 to k
        invariant |row| == j && forall n | 0 <= n < j :: row[n] == Corr(sqrt, streams, len, i, n)
      {
        var cell;
        if sds[i] == 0.0 || sds[j] == 0.0 {
          cell := if i == j then 1.0 else 0.0;
        } else {
          var cov := CoSum(Stream(streams, i), Stream(streams, j), len);
          cell := Ratio(cov, sds[i] * sds[j]);
        }
        row := row + [cell];
      }
      R := R + [row];
    }
  }

  lemma NonZeroProduct(x: real, y: real)
    requires x != 0.0 && y != 0.0
    ensures x * y != 0.0
  {
  }

  // ----- standardised deviations

  function Z(sqrt: real -> real, streams: seq<seq<real>>, len: nat, i: int, t: int): real
    requires len > 0
  {
    var s := Spread(sqrt, streams, len, i);
    if s == 0.0 then 0.0 else Dev(Stream(streams, i), len)(t) / s
  }

  function ZZ(sqrt: real -> real, streams: seq<seq<real>>, len: nat, i: int, j: int): int -> real
    requires len > 0
  {
    t => Z(sqrt, streams, len, i, t) * Z(sqrt, streams, len, j, t)
  }

  function Self(sqrt: real -> real, streams: seq<seq<real>>, len: nat, i: int): real
    requires len > 0
  {
    if Spread(sqrt, streams, len, i) == 0.0 then 1.0 else 0.0
  }

  lemma QuotientProduct(x: real, y: real, s: real, r: real)
    requires s != 0.0 && r != 0.0 && s * r != 0.0
    ensures (x / s) * (y / r) == (1.0 / (s * r)) * (x * y)
  {
    var a, b, c := x / s, y / r, 1.0 / (s * r);
    assert a * s == x && b * r == y && c * (s * r) == 1.0;
    assert (a * b) * (s * r) == (a * s) * (b * r) == x * y;
    assert (c * (x * y)) * (s * r) == (c * (s * r)) * (x * y) == x * y;
    Cancel(a * b, c * (x * y), s * r);
  }

  /** A correlation is the inner product of standardised deviations, plus one on the diagonal of
      a constant stream. */
  lemma {:induction false} CorrAsInnerProduct(sqrt: real -> real, streams: seq<seq<real>>, len: nat, i: int, j: int)
    requires len > 0
    ensures Corr(sqrt, streams, len, i, j)
            == Sum(ZZ(sqrt, streams, len, i, j), 0, len) + if i == j then Self(sqrt, streams, len, i) else 0.0
  {
    hide CoSum, Dev;
    var si, sj := Spread(sqrt, streams, len, i), Spread(sqrt, streams, len, j);
    var f, zz := CoDev(Stream(streams, i), Stream(streams, j), len), ZZ(sqrt, streams, len, i, j);
    if si == 0.0 || sj == 0.0 {
      forall t | 0 <= t < len ensures zz(t) == 0.0 {
      }
      SumZero(zz, 0, len);
    } else {
      NonZeroProduct(si, sj);
      var c := 1.0 / (si * sj);
      forall t | 0 <= t < len ensures zz(t) == c * f(t) {
        QuotientProduct(Dev(Stream(streams, i), len)(t), Dev(Stream(streams, j), len)(t), si, sj);
      }
      SumScale(c, f, zz, 0, len);
      ScaledQuotient(Sum(f, 0, len), si * sj);
      SummedDeviations(Stream(streams, i), Stream(streams, j), len);
    }
  }

  lemma SummedDeviations(f: int -> real, g: int -> real, n: nat)
    requires n > 0
    ensures CoSum(f, g, n) == Sum(CoDev(f, g, n), 0, n)
  {
  }

  lemma ScaledQuotient(x: real, s: real)
    requires s != 0.0
    ensures x / s == (1.0 / s) * x
  {
    var q, c := x / s, 1.0 / s;
    assert q * s == x && c * s == 1.0;
    assert (c * x) * s == (c * s) * x;
    Cancel(q, c * x, s);
  }

  // ----- positive semidefiniteness

  /** The weighted matrix entry, cut to the first n observations. */
  function Weighted(a: int -> real, sqrt: real -> real, streams: seq<seq<real>>, len: nat, n: nat): (int, int) -> real
    requires len > 0
  {
    (i: int, j: int) => (a(i) * a(j)) * Sum(ZZ(sqrt, streams, len, i, j), 0, n)
  }

  function Mix(a: int -> real, sqrt: real -> real, streams: seq<seq<real>>, len: nat, t: int): int -> real
    requires len > 0
  {
    i => a(i) * Z(sqrt, streams, len, i, t)
  }

  /** The weighted Gram sum grows by the square of the mixture at each observation. */
  lemma {:induction false} GramNonNegative(a: int -> real, sqrt: real -> real, streams: seq<seq<real>>, len: nat,
                                           n: nat, k: nat)
    requires len > 0
    ensures Sum2(Weighted(a, sqrt, streams, len, n), k) >= 0.0
    decreases n
  {
    hide Z, Sum2;
    if n == 0 {
      var f := Weighted(a, sqrt, streams, len, 0);
      var none: int -> real := i => 0.0;
      forall i, j | 0 <= i < k && 0 <= j < k ensures f(i, j) == if i == j then none(i) else 0.0 {
        assert (a(i) * a(j)) * 0.0 == 0.0;
      }
      Sum2Diagonal(none, f, k);
      SumZero(none, 0, k);
    } else {
      GramNonNegative(a, sqrt, streams, len, n - 1, k);
      GramStep(a, sqrt, streams, len, n - 1, k);
      var total := Sum(Mix(a, sqrt, streams, len, n - 1), 0, k);
      SquareNonNegative(total);
    }
  }

  function RankOne(b: int -> real): (int, int) -> real {
    (i: int, j: int) => b(i) * b(j)
  }

  lemma {:induction false} RankOneSum(b: int -> real, k: nat)
    ensures Sum2(RankOne(b), k) == Sum(b, 0, k) * Sum(b, 0, k)
  {
    hide Sum2, Sum;
    Sum2Square(b, RankOne(b), k);
  }

  lemma {:induction false} GramStep(a: int -> real, sqrt: real -> real, streams: seq<seq<real>>, len: nat, n: nat,
                                    k: nat)
    requires len > 0
    ensures var total := Sum(Mix(a, sqrt, streams, len, n), 0, k);
            Sum2(Weighted(a, sqrt, streams, len, n + 1), k)
            == Sum2(Weighted(a, sqrt, streams, len, n), k) + total * total
  {
    hide Weighted, Mix, Sum2, Sum, RankOne;
    var f, h := Weighted(a, sqrt, streams, len, n), Weighted(a, sqrt, streams, len, n + 1);
    var b := Mix(a, sqrt, streams, len, n);
    var g := RankOne(b);
    forall i, j | 0 <= i < k && 0 <= j < k ensures h(i, j) == f(i, j) + g(i, j) {
      WeightedGrows(a, sqrt, streams, len, n, i, j);
    }
    Sum2Add(f, g, h, k);
    RankOneSum(b, k);
  }

  lemma WeightedGrows(a: int -> real, sqrt: real -> real, streams: seq<seq<real>>, len: nat, n: nat, i: int, j: int)
    requires len > 0
    ensures Weighted(a, sqrt, streams, len, n + 1)(i, j)
            == Weighted(a, sqrt, streams, len, n)(i, j)
               + RankOne(Mix(a, sqrt, streams, len, n))(i, j)
  {
    hide Z;
    LastTerm(sqrt, streams, len, i, j, n);
    var zi, zj := Z(sqrt, streams, len, i, n), Z(sqrt, streams, len, j, n);
    var s := Sum(ZZ(sqrt, streams, len, i, j), 0, n);
    Regroup(a(i), a(j), s, zi, zj);
  }

  lemma LastTerm(sqrt: real -> real, streams: seq<seq<real>>, len: nat, i: int, j: int, n: nat)
    requires len > 0
    ensures Sum(ZZ(sqrt, streams, len, i, j), 0, n + 1)
            == Sum(ZZ(sqrt, streams, len, i, j), 0, n) + Z(sqrt, streams, len, i, n) * Z(sqrt, streams, len, j, n)
  {
    hide Z;
    var zz := ZZ(sqrt, streams, len, i, j);
    assert zz(n) == Z(sqrt, streams, len, i, n) * Z(sqrt, streams, len, j, n);
  }

  lemma Regroup(a: real, b: real, s: real, x: real, y: real)
    ensures (a * b) * (s + x * y) == (a * b) * s + (a * x) * (b * y)
  {
  }

  function WeightedCorr(a: int -> real, sqrt: real -> real, streams: seq<seq<real>>, len: nat): (int, int) -> real
    requires len > 0
  {
    (i: int, j: int) => (a(i) * a(j)) * Corr(sqrt, streams, len, i, j)
  }

  /** For every weighting of the streams the quadratic form of the computed matrix is
      non-negative, constant streams included. */
  lemma {:induction false} CorrelationPSD(a: int -> real, sqrt: real -> real, streams: seq<seq<real>>, len: nat, k: nat)
    requires len > 0
    ensures Sum2(WeightedCorr(a, sqrt, streams, len), k) >= 0.0
  {
    hide Corr, Sum2, ZZ, Self;
    GramNonNegative(a, sqrt, streams, len, len, k);
    var f, h := Weighted(a, sqrt, streams, len, len), WeightedCorr(a, sqrt, streams, len);
    var d: int -> real := i => (a(i) * a(i)) * Self(sqrt, streams, len, i);
    var g: (int, int) -> real := (i: int, j: int) => if i == j then d(i) else 0.0;
    forall i, j | 0 <= i < k && 0 <= j < k ensures h(i, j) == f(i, j) + g(i, j) {
      CorrAsInnerProduct(sqrt, streams, len, i, j);
      SplitProduct(a(i) * a(j), Sum(ZZ(sqrt, streams, len, i, j), 0, len),
                   if i == j then Self(sqrt, streams, len, i) else 0.0);
    }
    Sum2Add(f, g, h, k);
    Sum2Diagonal(d, g, k);
    forall i | 0 <= i < k ensures d(i) >= 0.0 {
      SelfTerm(a(i), sqrt, streams, len, i);
    }
    SumNonNegative(d, 0, k);
  }

  lemma SplitProduct(c: real, x: real, y: real)
    ensures c * (x + y) == c * x + c * y
  {
  }

  lemma SelfTerm(w: real, sqrt: real -> real, streams: seq<seq<real>>, len: nat, i: int)
    requires len > 0
    ensures (w * w) * Self(sqrt, streams, len, i) >= 0.0
  {
    SquareNonNegative(w);
  }

  // ----- entries

  /** Cauchy-Schwarz: every computed entry lies in [-1, 1]. */
  lemma {:induction false} CorrBounded(sqrt: real -> real, streams: seq<seq<real>>, len: nat, i: int, j: int)
    requires IsSqrt(sqrt) && len > 0
    ensures -1.0 <= Corr(sqrt, streams, len, i, j) <= 1.0
    ensures Corr(sqrt, streams, len, i, j) * Corr(sqrt, streams, len, i, j) <= 1.0
  {
    hide IsSqrt, CoSum, Stream, Cellwise;
    var x, y := Stream(streams, i), Stream(streams, j);
    CoSumSelf(x, len);
    CoSumSelf(y, len);
    RootOf(sqrt, CoSum(x, x, len));
    RootOf(sqrt, CoSum(y, y, len));
    CoSumCauchy(x, y, len);
    CellwiseBounded(Spread(sqrt, streams, len, i), Spread(sqrt, streams, len, j), CoSum(x, y, len), i == j,
                    CoSum(x, x, len), CoSum(y, y, len));
  }

  lemma CellwiseBounded(si: real, sj: real, c: real, diagonal: bool, a: real, b: real)
    requires si * si == a && sj * sj == b && c * c <= a * b
    ensures -1.0 <= Cellwise(si, sj, c, diagonal) <= 1.0
    ensures Cellwise(si, sj, c, diagonal) * Cellwise(si, sj, c, diagonal) <= 1.0
  {
    if si != 0.0 && sj != 0.0 {
      NonZeroProduct(si, sj);
      assert (si * sj) * (si * sj) == (si * si) * (sj * sj);
      UnitQuotient(c, si * sj);
    }
  }

  lemma RootOf(sqrt: real -> real, x: real)
    requires IsSqrt(sqrt) && x >= 0.0
    ensures sqrt(x) >= 0.0 && sqrt(x) * sqrt(x) == x
  {
  }

  /** The square is passed by name: the solver rewrites s * s > 0 to s != 0. */
  lemma AtMostOne(x: real, y: real, w: real)
    requires w > 0.0 && x * w == y
    requires y <= w
    ensures x <= 1.0
  {
    DivideOrder(x, 1.0, w);
  }

  lemma SquaredQuotient(q: real, c: real, s: real)
    requires q * s == c
    ensures (q * q) * (s * s) == c * c
  {
  }

  lemma UnitQuotient(c: real, s: real)
    requires s != 0.0 && c * c <= s * s
    ensures -1.0 <= c / s <= 1.0
    ensures (c / s) * (c / s) <= 1.0
  {
    var q := c / s;
    assert q * s == c;
    var x, w := q * q, s * s;
    PositiveSquare(s, w);
    SquaredQuotient(q, c, s);
    AtMostOne(x, c * c, w);
    RootOrder(q, 1.0);
    RootOrder(-q, 1.0);
  }

  lemma {:induction false} CorrDiagonal(sqrt: real -> real, streams: seq<seq<real>>, len: nat, i: int)
    requires IsSqrt(sqrt) && len > 0
    ensures Corr(sqrt, streams, len, i, i) == 1.0
  {
    hide CoSum, IsSqrt, Ratio, Spread;
    CoSumSelf(Stream(streams, i), len);
    SpreadSquared(sqrt, streams, len, i);
    var c, s := CoSum(Stream(streams, i), Stream(streams, i), len), Spread(sqrt, streams, len, i);
    if s != 0.0 {
      var w := s * s;
      PositiveSquare(s, w);
      SelfRatio(c, w);
    }
  }

  lemma SpreadSquared(sqrt: real -> real, streams: seq<seq<real>>, len: nat, i: int)
    requires IsSqrt(sqrt) && len > 0
    ensures Spread(sqrt, streams, len, i) * Spread(sqrt, streams, len, i)
            == CoSum(Stream(streams, i), Stream(streams, i), len)
  {
    CoSumSelf(Stream(streams, i), len);
  }

  lemma SelfRatio(c: real, w: real)
    requires c == w && w > 0.0
    ensures Ratio(c, w) == 1.0
  {
    RatioTimes(c, w);
    Cancel(Ratio(c, w), 1.0, w);
  }

  // ----- effective bets

  /** None stands for nan; the printed values round these. */
  datatype Bets = Bets(participation: Option<real>, rhoBar: real, equicorr: Option<real>)

  function Cell(R: seq<seq<real>>): (int, int) -> real {
    (i: int, j: int) => Entry(R, i, j)
  }

  function CellSquared(R: seq<seq<real>>): (int, int) -> real {
    (i: int, j: int) => Entry(R, i, j) * Entry(R, i, j)
  }

  function OffDiagonal(R: seq<seq<real>>): (int, int) -> real {
    (i: int, j: int) => if i != j then Entry(R, i, j) else 0.0
  }

  function RhoBar(R: seq<seq<real>>): real {
    var n := |R|;
    if n <= 1 then 0.0 else Sum2(OffDiagonal(R), n) / (n * (n - 1)) as real
  }

  function EffectiveBets(R: seq<seq<real>>): Bets {
    var n := |R|;
    var sumsq := Sum2(CellSquared(R), n);
    var denominator := 1.0 + (n as real - 1.0) * RhoBar(R);
    Bets(if sumsq > 0.0 then Some((n * n) as real / sumsq) else None,
         RhoBar(R),
         if denominator > 0.0 then Some(n as real / denominator) else None)
  }

  lemma {:induction false} TotalNonNegative(sqrt: real -> real, streams: seq<seq<real>>, len: nat, R: seq<seq<real>>)
    requires len > 0 && IsCorrelation(sqrt, streams, len, R)
    ensures Sum2(Cell(R), |R|) >= 0.0
  {
    hide Corr, Sum2;
    var one: int -> real := i => 1.0;
    CorrelationPSD(one, sqrt, streams, len, |R|);
    var f := WeightedCorr(one, sqrt, streams, len);
    forall i, j | 0 <= i < |R| && 0 <= j < |R| ensures f(i, j) == Cell(R)(i, j) {
      assert Entry(R, i, j) == R[i][j];
    }
    Sum2Same(f, Cell(R), |R|);
  }

  lemma CellBounds(sqrt: real -> real, streams: seq<seq<real>>, len: nat, R: seq<seq<real>>, i: int, j: int)
    requires IsSqrt(sqrt) && len > 0 && IsCorrelation(sqrt, streams, len, R)
    requires 0 <= i < |R| && 0 <= j < |R|
    ensures (if i == j then 1.0 else 0.0) <= CellSquared(R)(i, j) <= 1.0
  {
    hide Corr, IsSqrt;
    assert Entry(R, i, j) == R[i][j];
    CorrBounded(sqrt, streams, len, i, j);
    SquareNonNegative(Entry(R, i, j));
    if i == j {
      CorrDiagonal(sqrt, streams, len, i);
    }
  }

  /** The identity matrix and the matrix of ones. */
  function Unit(): (int, int) -> real {
    (i: int, j: int) => if i == j then 1.0 else 0.0
  }

  function Ones(): (int, int) -> real {
    (i: int, j: int) => 1.0
  }

  lemma {:induction false} UnitSum(n: nat)
    ensures Sum2(Unit(), n) == n as real
  {
    hide Sum2, Sum;
    var one: int -> real := i => 1.0;
    Sum2Diagonal(one, Unit(), n);
    SumConstant(one, 1.0, 0, n);
  }

  lemma {:induction false} OnesSum(n: nat)
    ensures Sum2(Ones(), n) == (n * n) as real
  {
    hide Sum2, Sum;
    var one: int -> real := i => 1.0;
    Sum2Square(one, Ones(), n);
    SumConstant(one, 1.0, 0, n);
  }

  /** Squared entries sum to between n (the diagonal) and n^2. */
  lemma {:induction false} SquaresBetween(sqrt: real -> real, streams: seq<seq<real>>, len: nat, R: seq<seq<real>>)
    requires IsSqrt(sqrt) && len > 0 && IsCorrelation(sqrt, streams, len, R)
    ensures |R| as real <= Sum2(CellSquared(R), |R|) <= (|R| * |R|) as real
  {
    hide Sum2, IsSqrt, IsCorrelation, CellSquared;
    var n := |R|;
    forall i, j | 0 <= i < n && 0 <= j < n
      ensures Unit()(i, j) <= CellSquared(R)(i, j) <= Ones()(i, j)
    {
      CellBounds(sqrt, streams, len, R, i, j);
    }
    hide Unit, Ones;
    Sum2Monotone(Unit(), CellSquared(R), n);
    Sum2Monotone(CellSquared(R), Ones(), n);
    UnitSum(n);
    OnesSum(n);
  }

  lemma CellSplits(sqrt: real -> real, streams: seq<seq<real>>, len: nat, R: seq<seq<real>>, i: int, j: int)
    requires IsSqrt(sqrt) && len > 0 && IsCorrelation(sqrt, streams, len, R)
    requires 0 <= i < |R| && 0 <= j < |R|
    ensures Cell(R)(i, j) == OffDiagonal(R)(i, j) + Unit()(i, j)
  {
    hide Corr, IsSqrt;
    assert Entry(R, i, j) == R[i][j];
    if i == j {
      CorrDiagonal(sqrt, streams, len, i);
    }
  }

  /** The off-diagonal sum is the total less the unit diagonal. */
  lemma {:induction false} OffDiagonalSum(sqrt: real -> real, streams: seq<seq<real>>, len: nat, R: seq<seq<real>>)
    requires IsSqrt(sqrt) && len > 0 && IsCorrelation(sqrt, streams, len, R)
    ensures Sum2(OffDiagonal(R), |R|) == Sum2(Cell(R), |R|) - |R| as real
  {
    hide Sum2, IsSqrt, IsCorrelation, Cell, OffDiagonal, Unit;
    var n := |R|;
    forall i, j | 0 <= i < n && 0 <= j < n ensures Cell(R)(i, j) == OffDiagonal(R)(i, j) + Unit()(i, j) {
      CellSplits(sqrt, streams, len, R, i, j);
    }
    Sum2Add(OffDiagonal(R), Unit(), Cell(R), n);
    UnitSum(n);
  }

  /** For every non-empty family of streams the participation ratio is a number in [1, N], and
      the equicorrelation denominator is the matrix total over N, never negative. */
  lemma {:induction false} BetsInRange(sqrt: real -> real, streams: seq<seq<real>>, len: nat, R: seq<seq<real>>)
    requires IsSqrt(sqrt) && len > 0 && IsCorrelation(sqrt, streams, len, R) && R != []
    ensures var bets := EffectiveBets(R);
            && bets.participation.Some? && 1.0 <= bets.participation.value <= |R| as real
            && (1.0 + (|R| as real - 1.0) * bets.rhoBar) * |R| as real == Sum2(Cell(R), |R|) >= 0.0
            && 1.0 + (|R| as real - 1.0) * bets.rhoBar >= 0.0
            && (bets.equicorr.None? <==> Sum2(Cell(R), |R|) == 0.0)
  {
    hide Sum2, IsSqrt, IsCorrelation, RhoBar;
    var n := |R|;
    SquaresBetween(sqrt, streams, len, R);
    TotalNonNegative(sqrt, streams, len, R);
    RatioBounds(n, Sum2(CellSquared(R), n));
    DenominatorIsTotal(sqrt, streams, len, R);
    DenominatorSign(1.0 + (n as real - 1.0) * RhoBar(R), n, Sum2(Cell(R), n));
  }

  lemma {:induction false} DenominatorIsTotal(sqrt: real -> real, streams: seq<seq<real>>, len: nat, R: seq<seq<real>>)
    requires IsSqrt(sqrt) && len > 0 && IsCorrelation(sqrt, streams, len, R) && R != []
    ensures (1.0 + (|R| as real - 1.0) * RhoBar(R)) * |R| as real == Sum2(Cell(R), |R|)
  {
    hide Sum2, IsSqrt, IsCorrelation;
    OffDiagonalSum(sqrt, streams, len, R);
    if |R| == 1 {
      SingleEntry(R);
    } else {
      MeanCorrelation(|R|, Sum2(Cell(R), |R|));
    }
  }

  lemma SingleEntry(R: seq<seq<real>>)
    requires |R| == 1
    ensures Sum2(OffDiagonal(R), 1) == 0.0
  {
    var f := OffDiagonal(R);
    assert Sum(j => f(0, j), 0, 0) == 0.0;
    assert Row(f, 0, 1) == 0.0 + f(0, 0);
    assert Sum(i => Row(f, i, 1), 0, 0) == 0.0;
    assert Sum2(f, 1) == 0.0 + Row(f, 0, 1);
  }

  lemma RatioBounds(n: nat, s: real)
    requires n > 0 && n as real <= s <= (n * n) as real
    ensures 1.0 <= (n * n) as real / s <= n as real
  {
    var q, k := (n * n) as real / s, n as real;
    assert q * s == (n * n) as real == k * k;
    DivideOrder(1.0, q, s);
    assert k * (s - k) >= 0.0;
    DivideOrder(q, k, s);
  }

  lemma MeanCorrelation(n: nat, total: real)
    requires n > 1
    ensures (1.0 + (n as real - 1.0) * ((total - n as real) / (n * (n - 1)) as real)) * n as real == total
  {
    var k := n as real;
    var d := (n * (n - 1)) as real;
    assert d == k * (k - 1.0);
    var q := (total - k) / d;
    assert q * d == total - k;
    assert (1.0 + (k - 1.0) * q) * k == k + q * (k * (k - 1.0));
  }

  lemma DenominatorSign(d: real, n: nat, total: real)
    requires n > 0 && d * n as real == total && total >= 0.0
    ensures d >= 0.0 && (d > 0.0 <==> total > 0.0)
  {
    if d < 0.0 {
      ProductPositive(-d, n as real);
    }
    if d > 0.0 {
      ProductPositive(d, n as real);
    }
  }
}
