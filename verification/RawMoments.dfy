/** The correlation routines in terms of the values alone: a correlation is a matter of the sums of
    the values and of their products (scripts/blockstats.py, scripts/factor_correlation_study.py). */
module RawMoments {
  import opened Reals
  import opened Market
  import opened Sums
  import opened Deviations
  import Correlation
  import Ranks

  // ----- deviations from the mean

  function Product(f: int -> real, g: int -> real): int -> real {
    t => f(t) * g(t)
  }

  /** n times the sum of the products, less the product of the sums. */
  function Moment(f: int -> real, g: int -> real, n: nat): real {
    n as real * Sum(Product(f, g), 0, n) - Sum(f, 0, n) * Sum(g, 0, n)
  }

  /** What is subtracted is the mean: the deviations add up to nothing. */
  lemma {:induction false} DeviationsCancel(f: int -> real, n: nat)
    requires n > 0
    ensures Sum(Dev(f, n), 0, n) == 0.0
  {
    hide Mean, Sum;
    var m := Mean(f, n);
    var shift: int -> real := t => -m;
    SumConstant(shift, -m, 0, n);
    SumAdd(f, shift, Dev(f, n), 0, n);
    MeanTimes(f, n);
    Opposites((n - 0) as real, m, Sum(f, 0, n));
  }

  lemma Opposites(n: real, m: real, sum: real)
    requires n * m == sum
    ensures sum + n * -m == 0.0
  {
  }

  lemma MeanTimes(f: int -> real, n: nat)
    requires n > 0
    ensures n as real * Mean(f, n) == Sum(f, 0, n)
  {
  }

  /** The terms of (f - a)(g - b), in two parts: f g - b f, and -a (g - b). */
  function Inner(f: int -> real, g: int -> real, b: real): int -> real {
    t => f(t) * g(t) + -b * f(t)
  }

  function Outer(g: int -> real, a: real, n: nat): int -> real
    requires n > 0
  {
    t => -a * Dev(g, n)(t)
  }

  lemma Expanded(f: int -> real, g: int -> real, n: nat, t: int)
    requires n > 0
    ensures CoDev(f, g, n)(t) == Inner(f, g, Mean(g, n))(t) + Outer(g, Mean(f, n), n)(t)
  {
    hide Mean;
    ExpandedProduct(f(t), g(t), Mean(f, n), Mean(g, n), Dev(f, n)(t), Dev(g, n)(t));
  }

  lemma ExpandedProduct(x: real, y: real, a: real, b: real, d: real, e: real)
    requires d == x - a && e == y - b
    ensures d * e == (x * y + -b * x) + -a * e
  {
  }

  lemma {:induction false} InnerSum(f: int -> real, g: int -> real, b: real, n: nat)
    ensures Sum(Inner(f, g, b), 0, n) == Sum(Product(f, g), 0, n) + -b * Sum(f, 0, n)
  {
    var scaled: int -> real := t => -b * f(t);
    SumScale(-b, f, scaled, 0, n);
    SumAdd(Product(f, g), scaled, Inner(f, g, b), 0, n);
  }

  lemma {:induction false} OuterSum(g: int -> real, a: real, n: nat)
    requires n > 0
    ensures Sum(Outer(g, a, n), 0, n) == 0.0
  {
    DeviationsCancel(g, n);
    hide Dev;
    SumScale(-a, Dev(g, n), Outer(g, a, n), 0, n);
  }

  /** The inner product of the deviations, from the values. */
  lemma {:induction false} CoSumIs(f: int -> real, g: int -> real, n: nat)
    requires n > 0
    ensures n as real * CoSum(f, g, n) == Moment(f, g, n)
  {
    hide Mean, Inner, Outer, CoDev, Product, Sum;
    var a, b := Mean(f, n), Mean(g, n);
    forall t | 0 <= t < n ensures CoDev(f, g, n)(t) == Inner(f, g, b)(t) + Outer(g, a, n)(t) {
      Expanded(f, g, n, t);
    }
    SumAdd(Inner(f, g, b), Outer(g, a, n), CoDev(f, g, n), 0, n);
    InnerSum(f, g, b, n);
    OuterSum(g, a, n);
    MeanTimes(g, n);
    Cleared(n as real, Sum(Product(f, g), 0, n), Sum(f, 0, n), Sum(g, 0, n), b, CoSum(f, g, n));
  }

  lemma Cleared(n: real, xy: real, x: real, y: real, b: real, s: real)
    requires n * b == y && s == (xy + -b * x) + 0.0
    ensures n * s == n * xy - x * y
  {
    assert n * (b * x) == (n * b) * x;
  }

  // ----- what a correlation is

  /** r is the correlation of three moments: its square is the share of the mixed moment in the two
      others, and its sign is that of the mixed moment. */
  predicate Correlates(r: real, xx: real, yy: real, xy: real) {
    r * r * (xx * yy) == xy * xy && r * xy >= 0.0
  }

  lemma {:induction false} QuotientCorrelates(n: nat, si: real, sj: real, c: real, r: real,
                                              xx: real, yy: real, xy: real)
    requires n > 0 && si > 0.0 && sj > 0.0 && r * (si * sj) == c
    requires n as real * (si * si) == xx && n as real * (sj * sj) == yy && n as real * c == xy
    ensures Correlates(r, xx, yy, xy)
  {
    var k, s := n as real, si * sj;
    assert xx * yy == (k * k) * (s * s);
    assert (r * r) * (s * s) == c * c;
    assert r * r * (xx * yy) == (k * k) * ((r * r) * (s * s));
    assert xy * xy == (k * k) * (c * c);
    ProductPositive(si, sj);
    SquareNonNegative(r);
    ProductPositive(k, s);
    NonNegativeProduct(k * s, r * r);
    assert r * xy == (k * s) * (r * r);
  }

  lemma NonNegativeProduct(x: real, y: real)
    requires x >= 0.0 && y >= 0.0
    ensures x * y >= 0.0
  {
  }

  lemma MomentSign(f: int -> real, n: nat)
    requires n > 0
    ensures CoSum(f, f, n) >= 0.0 && (CoSum(f, f, n) == 0.0 <==> Moment(f, f, n) == 0.0)
  {
    CoSumSelf(f, n);
    CoSumIs(f, f, n);
  }

  lemma RootPositive(sqrt: real -> real, x: real)
    requires IsSqrt(sqrt) && x >= 0.0
    ensures sqrt(x) >= 0.0 && sqrt(x) * sqrt(x) == x && (sqrt(x) == 0.0 <==> x == 0.0)
  {
    Ranks.SquareZero(sqrt(x), x);
  }

  /** Every cell of the matrix, from the values of its two streams: a stream whose moment vanishes (it
      is constant) correlates with itself only. */
  lemma {:induction false} MatrixIs(sqrt: real -> real, streams: seq<seq<real>>, len: nat, R: seq<seq<real>>,
                                    i: nat, j: nat)
    requires IsSqrt(sqrt) && len > 0 && Correlation.IsCorrelation(sqrt, streams, len, R)
    requires i < |R| && j < |R|
    ensures var x, y := Value(streams[i]), Value(streams[j]);
            && |R[i]| == |R|
            && if Moment(x, x, len) == 0.0 || Moment(y, y, len) == 0.0 then R[i][j] == if i == j then 1.0 else 0.0
               else Correlates(R[i][j], Moment(x, x, len), Moment(y, y, len), Moment(x, y, len))
  {
    hide CoSum, Moment, IsSqrt, Correlates;
    var x, y := Correlation.Stream(streams, i), Correlation.Stream(streams, j);
    SameMoment(streams, i, i, len);
    SameMoment(streams, j, j, len);
    SameMoment(streams, i, j, len);
    MomentSign(x, len);
    MomentSign(y, len);
    CoSumIs(x, x, len);
    CoSumIs(y, y, len);
    CoSumIs(x, y, len);
    RootPositive(sqrt, CoSum(x, x, len));
    RootPositive(sqrt, CoSum(y, y, len));
    CellIs(len, sqrt(CoSum(x, x, len)), sqrt(CoSum(y, y, len)), CoSum(x, x, len), CoSum(y, y, len), CoSum(x, y, len),
           i == j, Moment(x, x, len), Moment(y, y, len), Moment(x, y, len));
    hide Correlation.Cellwise;
  }

  lemma {:induction false} CellIs(n: nat, si: real, sj: real, sxx: real, syy: real, c: real, same: bool,
                                  xx: real, yy: real, xy: real)
    requires n > 0 && si >= 0.0 && sj >= 0.0 && si * si == sxx && sj * sj == syy
    requires (si == 0.0 <==> sxx == 0.0) && (sj == 0.0 <==> syy == 0.0)
    requires n as real * sxx == xx && n as real * syy == yy && n as real * c == xy
    ensures var r := Correlation.Cellwise(si, sj, c, same);
            if sxx == 0.0 || syy == 0.0 then r == if same then 1.0 else 0.0 else Correlates(r, xx, yy, xy)
  {
    hide Correlates, Ratio;
    if si != 0.0 && sj != 0.0 {
      ProductPositive(si, sj);
      RatioTimes(c, si * sj);
      QuotientCorrelates(n, si, sj, c, Ratio(c, si * sj), xx, yy, xy);
    }
  }

  lemma {:induction false} SameMoment(streams: seq<seq<real>>, i: nat, j: nat, n: nat)
    requires i < |streams| && j < |streams|
    ensures Moment(Correlation.Stream(streams, i), Correlation.Stream(streams, j), n)
            == Moment(Value(streams[i]), Value(streams[j]), n)
  {
    var x, y := Correlation.Stream(streams, i), Correlation.Stream(streams, j);
    SumSame(x, Value(streams[i]), 0, n);
    SumSame(y, Value(streams[j]), 0, n);
    SumSame(Product(x, y), Product(Value(streams[i]), Value(streams[j])), 0, n);
  }

  // ----- effective bets

  function CellOf(R: seq<seq<real>>, i: int, j: int): real {
    if 0 <= i < |R| && 0 <= j < |R[i]| then R[i][j] else 0.0
  }

  function Squares(R: seq<seq<real>>): (int, int) -> real {
    (i: int, j: int) => CellOf(R, i, j) * CellOf(R, i, j)
  }

  function Others(R: seq<seq<real>>): (int, int) -> real {
    (i: int, j: int) => if i == j then 0.0 else CellOf(R, i, j)
  }

  /** The three figures of n streams, from the sum of the squared cells and that of the cells off the
      diagonal: the participation ratio is n^2 over the first, the mean correlation the mean of the
      others, and the equicorrelation figure n over 1 + (n - 1) times that mean. */
  predicate Figures(n: real, squares: real, others: real, bets: Correlation.Bets) {
    && (bets.participation.Some? <==> squares > 0.0)
    && (bets.participation.Some? ==> bets.participation.value * squares == n * n)
    && bets.rhoBar * (n * (n - 1.0)) == (if n == 1.0 then 0.0 else others)
    && (n == 1.0 ==> bets.rhoBar == 0.0)
    && (bets.equicorr.Some? <==> 1.0 + (n - 1.0) * bets.rhoBar > 0.0)
    && (bets.equicorr.Some? ==> bets.equicorr.value * (1.0 + (n - 1.0) * bets.rhoBar) == n)
  }

  lemma {:induction false} BetsAre(R: seq<seq<real>>)
    requires R != []
    ensures Figures(|R| as real, Sum2(Squares(R), |R|), Sum2(Others(R), |R|), Correlation.EffectiveBets(R))
  {
    hide Sum2, Figures, Correlation.EffectiveBets;
    Sum2Same(Squares(R), Correlation.CellSquared(R), |R|);
    Sum2Same(Others(R), Correlation.OffDiagonal(R), |R|);
    FiguresFrom(R, Sum2(Squares(R), |R|), Sum2(Others(R), |R|));
  }

  lemma FiguresFrom(R: seq<seq<real>>, squares: real, others: real)
    requires R != []
    requires squares == Sum2(Correlation.CellSquared(R), |R|) && others == Sum2(Correlation.OffDiagonal(R), |R|)
    ensures Figures(|R| as real, squares, others, Correlation.EffectiveBets(R))
  {
    hide Sum2, Figures, Correlation.RhoBar;
    RhoIs(R);
    FiguresAre(|R|, squares, others, 1.0 + (|R| as real - 1.0) * Correlation.RhoBar(R), Correlation.EffectiveBets(R));
  }

  lemma RhoIs(R: seq<seq<real>>)
    ensures Correlation.RhoBar(R)
            == if |R| <= 1 then 0.0 else Sum2(Correlation.OffDiagonal(R), |R|) / (|R| * (|R| - 1)) as real
  {
  }

  lemma FiguresAre(n: nat, squares: real, others: real, d: real, bets: Correlation.Bets)
    requires n > 0 && bets.rhoBar == if n <= 1 then 0.0 else others / (n * (n - 1)) as real
    requires d == 1.0 + (n as real - 1.0) * bets.rhoBar
    requires bets.participation == if squares > 0.0 then Some((n * n) as real / squares) else None
    requires bets.equicorr == if d > 0.0 then Some(n as real / d) else None
    ensures Figures(n as real, squares, others, bets)
  {
    hide Figures, Products;
    Pairs(n);
    FiguresOf(n as real, (n * n) as real, (n * (n - 1)) as real, squares, others, d, bets);
  }

  /** The square of n and the number of its ordered pairs. */
  predicate Products(n: real, square: real, pairs: real) {
    square == n * n && pairs == n * (n - 1.0) && (n != 1.0 ==> pairs > 0.0)
  }

  lemma FiguresOf(n: real, square: real, pairs: real, squares: real, others: real, d: real, bets: Correlation.Bets)
    requires n >= 1.0 && Products(n, square, pairs)
    requires bets.rhoBar == (if n == 1.0 then 0.0 else others / pairs) && d == 1.0 + (n - 1.0) * bets.rhoBar
    requires bets.participation == if squares > 0.0 then Some(square / squares) else None
    requires bets.equicorr == if d > 0.0 then Some(n / d) else None
    ensures Figures(n, squares, others, bets)
  {
    if squares > 0.0 {
      Undivided(square, squares);
    }
    if d > 0.0 {
      Undivided(n, d);
    }
    if n != 1.0 {
      Undivided(others, pairs);
    }
  }

  lemma Undivided(x: real, d: real)
    requires d != 0.0
    ensures (x / d) * d == x
  {
  }

  lemma Pairs(n: nat)
    requires n > 0
    ensures Products(n as real, (n * n) as real, (n * (n - 1)) as real)
  {
    assert n > 1 ==> n * (n - 1) > 0;
  }

  // ----- the rank study

  /** The same of pearson, which calls a constant series uncorrelated. */
  lemma {:induction false} PearsonIs(sqrt: real -> real, xs: seq<real>, ys: seq<real>)
    requires IsSqrt(sqrt) && xs != [] && |xs| == |ys|
    ensures var x, y, n := Value(xs), Value(ys), |xs|;
            var r := Ranks.Pearson(sqrt, xs, ys);
            if Moment(x, x, n) == 0.0 || Moment(y, y, n) == 0.0 then r == 0.0
            else Correlates(r, Moment(x, x, n), Moment(y, y, n), Moment(x, y, n))
  {
    hide CoSum, Moment, IsSqrt, Correlates, Value;
    var x, y, n := Value(xs), Value(ys), |xs|;
    MomentSign(x, n);
    MomentSign(y, n);
    CoSumIs(x, x, n);
    CoSumIs(y, y, n);
    CoSumIs(x, y, n);
    var sxx, syy, sxy := CoSum(x, x, n), CoSum(y, y, n), CoSum(x, y, n);
    if sxx != 0.0 && syy != 0.0 {
      hide Ranks.Correlate;
      RootOfBoth(sqrt, n, sxx, syy, sxy, Moment(x, x, n), Moment(y, y, n), Moment(x, y, n));
    }
  }

  lemma {:induction false} RootOfBoth(sqrt: real -> real, n: nat, sxx: real, syy: real, sxy: real,
                                      xx: real, yy: real, xy: real)
    requires IsSqrt(sqrt) && n > 0 && sxx > 0.0 && syy > 0.0
    requires xx == n as real * sxx && yy == n as real * syy && xy == n as real * sxy
    ensures Correlates(Ranks.Correlate(sqrt, sxx, syy, sxy), xx, yy, xy)
  {
    hide IsSqrt, Ratio;
    var p := sxx * syy;
    ProductPositive(sxx, syy);
    RootPositive(sqrt, p);
    var root := sqrt(p);
    RatioTimes(sxy, root);
    var r, k := Ratio(sxy, root), n as real;
    assert (r * r) * p == (r * root) * (r * root) == sxy * sxy;
    assert r * r * (xx * yy) == (k * k) * ((r * r) * p);
    assert xy * xy == (k * k) * (sxy * sxy);
    SquareNonNegative(r);
    ProductPositive(k, root);
    NonNegativeProduct(k * root, r * r);
    assert r * xy == (k * root) * (r * r);
  }
}
