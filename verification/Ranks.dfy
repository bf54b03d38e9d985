/** scripts/factor_correlation_study.py: tie-averaged ranks and rank correlation. */
module Ranks {
  import opened Reals
  import opened Sums
  import opened Deviations

  // ----- counting

  /** How many of the first n values lie below v, and how many equal it. */
  function Less(xs: seq<real>, v: real, n: nat): nat
    requires n <= |xs|
  {
    if n == 0 then 0 else Less(xs, v, n - 1) + if xs[n - 1] < v then 1 else 0
  }

  function Equal(xs: seq<real>, v: real, n: nat): nat
    requires n <= |xs|
  {
    if n == 0 then 0 else Equal(xs, v, n - 1) + if xs[n - 1] == v then 1 else 0
  }

  /** The tie-averaged, 1-based rank: those below, plus the middle of the tie. */
  function RankOf(xs: seq<real>, i: nat): real
    requires i < |xs|
  {
    Less(xs, xs[i], |xs|) as real + (Equal(xs, xs[i], |xs|) + 1) as real / 2.0
  }

  function Ranks(xs: seq<real>): (r: seq<real>)
    ensures |r| == |xs|
    ensures forall i | 0 <= i < |xs| :: r[i] == RankOf(xs, i)
  {
    seq(|xs|, i requires 0 <= i < |xs| => RankOf(xs, i))
  }

  // ----- the sorted order of positions

  predicate Positions(order: seq<nat>, n: nat) {
    forall p | 0 <= p < |order| :: order[p] < n
  }

  function InsertByValue(xs: seq<real>, order: seq<nat>, i: nat): seq<nat>
    requires Positions(order, |xs|) && i < |xs|
  {
    if order == [] || xs[order[|order| - 1]] <= xs[i] then order + [i]
    else InsertByValue(xs, order[..|order| - 1], i) + [order[|order| - 1]]
  }

  /** sorted(range(n), key=xs): stable insertion of one position after the other. */
  function OrderTo(xs: seq<real>, n: nat): (order: seq<nat>)
    requires n <= |xs|
    ensures |order| == n && Positions(order, |xs|)
  {
    if n == 0 then [] else
    var order := OrderTo(xs, n - 1);
    InsertedPositions(xs, order, n - 1);
    InsertByValue(xs, order, n - 1)
  }

  lemma InsertedPositions(xs: seq<real>, order: seq<nat>, i: nat)
    requires Positions(order, |xs|) && i < |xs|
    ensures |InsertByValue(xs, order, i)| == |order| + 1
    ensures Positions(InsertByValue(xs, order, i), |xs|)
  {
  }

  ghost predicate Ascending(xs: seq<real>, order: seq<nat>)
    requires Positions(order, |xs|)
  {
    forall p, q | 0 <= p < q < |order| :: xs[order[p]] <= xs[order[q]]
  }

  ghost predicate Injective(order: seq<nat>) {
    forall p, q | 0 <= p < q < |order| :: order[p] != order[q]
  }

  /** Insertion adds the one new position and keeps the others. */
  lemma {:induction false} InsertMembers(xs: seq<real>, order: seq<nat>, i: nat)
    requires Positions(order, |xs|) && i < |xs|
    ensures forall x: nat :: x in InsertByValue(xs, order, i) <==> x in order || x == i
    decreases |order|
  {
    if order != [] && xs[order[|order| - 1]] > xs[i] {
      var init, last := order[..|order| - 1], order[|order| - 1];
      Shorter(xs, order);
      InsertMembers(xs, init, i);
      assert order == init + [last];
    }
  }

  lemma Shorter(xs: seq<real>, order: seq<nat>)
    requires Positions(order, |xs|) && order != []
    ensures Positions(order[..|order| - 1], |xs|) && order[|order| - 1] < |xs|
  {
  }

  lemma {:induction false} InsertSorted(xs: seq<real>, order: seq<nat>, i: nat)
    requires Positions(order, |xs|) && i < |xs| && Ascending(xs, order)
    ensures Positions(InsertByValue(xs, order, i), |xs|) && Ascending(xs, InsertByValue(xs, order, i))
    decreases |order|
  {
    InsertedPositions(xs, order, i);
    if order != [] && xs[order[|order| - 1]] > xs[i] {
      var init, last := order[..|order| - 1], order[|order| - 1];
      InsertSorted(xs, init, i);
      InsertMembers(xs, init, i);
      AscendingLast(xs, InsertByValue(xs, init, i), init, last, i);
    }
  }

  lemma {:induction false} AscendingLast(xs: seq<real>, s: seq<nat>, init: seq<nat>, last: nat, i: nat)
    requires Positions(s, |xs|) && Ascending(xs, s) && last < |xs| && i < |xs| && xs[i] < xs[last]
    requires Positions(init + [last], |xs|) && Ascending(xs, init + [last])
    requires forall x: nat :: x in s <==> x in init || x == i
    ensures Ascending(xs, s + [last])
  {
    forall p | 0 <= p < |s| ensures xs[s[p]] <= xs[last] {
      assert s[p] in s;
      if s[p] != i {
        var q :| 0 <= q < |init| && init[q] == s[p];
        assert xs[(init + [last])[q]] <= xs[(init + [last])[|init|]];
      }
    }
  }

  lemma {:induction false} InsertInjective(xs: seq<real>, order: seq<nat>, i: nat)
    requires Positions(order, |xs|) && i < |xs| && Injective(order) && i !in order
    ensures Injective(InsertByValue(xs, order, i))
    decreases |order|
  {
    if order != [] && xs[order[|order| - 1]] > xs[i] {
      var init, last := order[..|order| - 1], order[|order| - 1];
      Shorter(xs, order);
      InsertInjective(xs, init, i);
      InsertMembers(xs, init, i);
      assert last !in InsertByValue(xs, init, i);
    }
  }

  /** The order lists every position once, values ascending. */
  lemma {:induction false} OrderSorted(xs: seq<real>, n: nat)
    requires n <= |xs|
    ensures Ascending(xs, OrderTo(xs, n)) && Injective(OrderTo(xs, n))
    ensures forall i: nat :: i in OrderTo(xs, n) <==> i < n
  {
    hide Ascending, Injective;
    if n == 0 {
      NoneSorted(xs);
    } else {
      OrderSorted(xs, n - 1);
      InsertSorted(xs, OrderTo(xs, n - 1), n - 1);
      InsertInjective(xs, OrderTo(xs, n - 1), n - 1);
      InsertMembers(xs, OrderTo(xs, n - 1), n - 1);
    }
  }

  lemma NoneSorted(xs: seq<real>)
    ensures Ascending(xs, []) && Injective([])
  {
  }

  // ----- counts survive sorting

  function LessIn(xs: seq<real>, order: seq<nat>, v: real): nat
    requires Positions(order, |xs|)
  {
    if order == [] then 0
    else LessIn(xs, order[..|order| - 1], v) + if xs[order[|order| - 1]] < v then 1 else 0
  }

  function EqualIn(xs: seq<real>, order: seq<nat>, v: real): nat
    requires Positions(order, |xs|)
  {
    if order == [] then 0
    else EqualIn(xs, order[..|order| - 1], v) + if xs[order[|order| - 1]] == v then 1 else 0
  }

  lemma {:induction false} InsertCounts(xs: seq<real>, order: seq<nat>, i: nat, v: real)
    requires Positions(order, |xs|) && i < |xs|
    ensures Positions(InsertByValue(xs, order, i), |xs|)
    ensures LessIn(xs, InsertByValue(xs, order, i), v) == LessIn(xs, order, v) + if xs[i] < v then 1 else 0
    ensures EqualIn(xs, InsertByValue(xs, order, i), v) == EqualIn(xs, order, v) + if xs[i] == v then 1 else 0
    decreases |order|
  {
    InsertedPositions(xs, order, i);
    if order == [] || xs[order[|order| - 1]] <= xs[i] {
      assert (order + [i])[..|order|] == order;
    } else {
      var init, last := order[..|order| - 1], order[|order| - 1];
      InsertCounts(xs, init, i, v);
      var s := InsertByValue(xs, init, i);
      assert (s + [last])[..|s|] == s;
    }
  }

  lemma {:induction false} OrderCounts(xs: seq<real>, n: nat, v: real)
    requires n <= |xs|
    ensures LessIn(xs, OrderTo(xs, n), v) == Less(xs, v, n)
    ensures EqualIn(xs, OrderTo(xs, n), v) == Equal(xs, v, n)
  {
    if n > 0 {
      OrderCounts(xs, n - 1, v);
      InsertCounts(xs, OrderTo(xs, n - 1), n - 1, v);
    }
  }

  /** In an ascending order a maximal run [j, k] of value v has j values below it. */
  lemma {:induction false} RunCounts(xs: seq<real>, order: seq<nat>, v: real, j: nat, k: nat)
    requires Positions(order, |xs|) && j <= k <= |order|
    requires forall p | 0 <= p < j :: xs[order[p]] < v
    requires forall p | j <= p < k :: xs[order[p]] == v
    requires forall p | k <= p < |order| :: v < xs[order[p]]
    ensures LessIn(xs, order, v) == j && EqualIn(xs, order, v) == k - j
    decreases |order|
  {
    if order != [] {
      var n := |order| - 1;
      RunCounts(xs, order[..n], v, if j > n then n else j, if k > n then n else k);
    }
  }

  // ----- average_ranks

  method AverageRanks(xs: seq<real>) returns (ranks: seq<real>)
    ensures ranks == Ranks(xs)
  {
    hide OrderTo, RankOf, LessIn, EqualIn;
    var order := OrderTo(xs, |xs|);
    OrderSorted(xs, |xs|);
    ranks := seq(|xs|, _ => 0.0);
    var j := 0;
    while j < |order|
      invariant 0 <= j <= |order| && |ranks| == |xs|
      invariant 0 < j < |order| ==> xs[order[j - 1]] < xs[order[j]]
      invariant forall p | 0 <= p < j :: ranks[order[p]] == RankOf(xs, order[p])
    {
      var k := j;
      while k + 1 < |order| && xs[order[k + 1]] == xs[order[j]]
        invariant j <= k < |order|
        invariant forall p | j <= p <= k :: xs[order[p]] == xs[order[j]]
      {
        k := k + 1;
      }
      TieRank(xs, order, j, k);
      var avg := (j + k) as real / 2.0 + 1.0;
      for pos := j to k + 1
        invariant |ranks| == |xs|
        invariant forall p | 0 <= p < pos :: ranks[order[p]] == RankOf(xs, order[p])
      {
        ranks := ranks[order[pos] := avg];
      }
      j := k + 1;
    }
    forall i | 0 <= i < |xs| ensures ranks[i] == RankOf(xs, i) {
      assert i in order;
    }
  }

  /** The average of the 1-based positions j+1..k+1 of a maximal tie is its rank. */
  lemma {:induction false} TieRank(xs: seq<real>, order: seq<nat>, j: nat, k: nat)
    requires order == OrderTo(xs, |xs|) && j <= k < |order|
    requires Ascending(xs, order)
    requires 0 < j ==> xs[order[j - 1]] < xs[order[j]]
    requires forall p | j <= p <= k :: xs[order[p]] == xs[order[j]]
    requires k + 1 < |order| ==> xs[order[k + 1]] != xs[order[j]]
    ensures forall p | j <= p <= k :: RankOf(xs, order[p]) == (j + k) as real / 2.0 + 1.0
  {
    hide OrderTo;
    var v := xs[order[j]];
    forall p | 0 <= p < j ensures xs[order[p]] < v {
      assert xs[order[p]] <= xs[order[j - 1]];
    }
    forall p | k < p < |order| ensures v < xs[order[p]] {
      assert xs[order[k]] <= xs[order[k + 1]] <= xs[order[p]];
    }
    RunCounts(xs, order, v, j, k + 1);
    OrderCounts(xs, |xs|, v);
    assert (k + 1 - j + 1) as real / 2.0 + j as real == (j + k) as real / 2.0 + 1.0;
  }

  // ----- the sum of the ranks

  /** Twice the rank minus one: twice those below, plus those equal. */
  function Standing(xs: seq<real>, v: real, n: nat): nat
    requires n <= |xs|
  {
    2 * Less(xs, v, n) + Equal(xs, v, n)
  }

  function Beats(x: real, y: real): nat {
    if x < y then 2 else if x == y then 1 else 0
  }

  /** All standings of the first m values among the first n. */
  function Standings(xs: seq<real>, m: nat, n: nat): nat
    requires m <= |xs| && n <= |xs|
  {
    if m == 0 then 0 else Standings(xs, m - 1, n) + Standing(xs, xs[m - 1], n)
  }

  function BeatenBy(xs: seq<real>, x: real, m: nat): nat
    requires m <= |xs|
  {
    if m == 0 then 0 else BeatenBy(xs, x, m - 1) + Beats(x, xs[m - 1])
  }

  lemma {:induction false} StandingsGrow(xs: seq<real>, m: nat, n: nat)
    requires m <= |xs| && n < |xs|
    ensures Standings(xs, m, n + 1) == Standings(xs, m, n) + BeatenBy(xs, xs[n], m)
  {
    if m > 0 {
      StandingsGrow(xs, m - 1, n);
    }
  }

  /** Of two values either one beats the other or they share: each pair is worth 2. */
  lemma {:induction false} PairsShareTwo(xs: seq<real>, x: real, m: nat)
    requires m <= |xs|
    ensures BeatenBy(xs, x, m) + Standing(xs, x, m) == 2 * m
  {
    if m > 0 {
      PairsShareTwo(xs, x, m - 1);
    }
  }

  lemma OwnStanding(xs: seq<real>, n: nat)
    requires n < |xs|
    ensures Standing(xs, xs[n], n + 1) == Standing(xs, xs[n], n) + 1
  {
  }

  lemma {:induction false} StandingsAreSquare(xs: seq<real>, n: nat)
    requires n <= |xs|
    ensures Standings(xs, n, n) == n * n
  {
    hide Standing, BeatenBy;
    if n > 0 {
      var m := n - 1;
      StandingsAreSquare(xs, m);
      StandingsGrow(xs, m, m);
      PairsShareTwo(xs, xs[m], m);
      OwnStanding(xs, m);
      assert n * n == m * m + 2 * m + 1;
    }
  }

  function RankSum(xs: seq<real>, m: nat): real
    requires m <= |xs|
  {
    if m == 0 then 0.0 else RankSum(xs, m - 1) + RankOf(xs, m - 1)
  }

  lemma {:induction false} RankSumFromStandings(xs: seq<real>, m: nat)
    requires m <= |xs|
    ensures 2.0 * RankSum(xs, m) == (Standings(xs, m, |xs|) + m) as real
  {
    if m > 0 {
      RankSumFromStandings(xs, m - 1);
    }
  }

  /** Ties or no ties, the ranks of n values sum to n(n+1)/2. */
  lemma RanksSum(xs: seq<real>)
    ensures 2.0 * RankSum(xs, |xs|) == (|xs| * (|xs| + 1)) as real
  {
    RankSumFromStandings(xs, |xs|);
    StandingsAreSquare(xs, |xs|);
  }

  // ----- ranks under order-preserving and order-reversing transforms

  /** ys orders its positions as xs does. */
  ghost predicate SameOrder(xs: seq<real>, ys: seq<real>) {
    |xs| == |ys| && forall i, j | 0 <= i < |xs| && 0 <= j < |xs| :: xs[i] < xs[j] <==> ys[i] < ys[j]
  }

  ghost predicate ReverseOrder(xs: seq<real>, ys: seq<real>) {
    |xs| == |ys| && forall i, j | 0 <= i < |xs| && 0 <= j < |xs| :: xs[i] < xs[j] <==> ys[i] > ys[j]
  }

  lemma {:induction false} CountsSameOrder(xs: seq<real>, ys: seq<real>, i: nat, n: nat)
    requires SameOrder(xs, ys) && i < |xs| && n <= |xs|
    ensures Less(xs, xs[i], n) == Less(ys, ys[i], n) && Equal(xs, xs[i], n) == Equal(ys, ys[i], n)
  {
    if n > 0 {
      CountsSameOrder(xs, ys, i, n - 1);
      assert xs[n - 1] < xs[i] <==> ys[n - 1] < ys[i];
      assert xs[i] < xs[n - 1] <==> ys[i] < ys[n - 1];
    }
  }

  /** Any strictly increasing transform of the data leaves all ranks, ties included, in place. */
  lemma RanksInvariant(xs: seq<real>, ys: seq<real>)
    requires SameOrder(xs, ys)
    ensures Ranks(xs) == Ranks(ys)
  {
    hide SameOrder;
    forall i: nat | i < |xs| ensures |xs| == |ys| && RankOf(xs, i) == RankOf(ys, i) {
      SameLength(xs, ys);
      CountsSameOrder(xs, ys, i, |xs|);
    }
    SameLength(xs, ys);
  }

  lemma SameLength(xs: seq<real>, ys: seq<real>)
    requires SameOrder(xs, ys)
    ensures |xs| == |ys|
  {
  }

  lemma {:induction false} CountsReverseOrder(xs: seq<real>, ys: seq<real>, i: nat, n: nat)
    requires ReverseOrder(xs, ys) && i < |xs| && n <= |xs|
    ensures Less(xs, xs[i], n) + Less(ys, ys[i], n) + Equal(ys, ys[i], n) == n
    ensures Equal(xs, xs[i], n) == Equal(ys, ys[i], n)
  {
    if n > 0 {
      CountsReverseOrder(xs, ys, i, n - 1);
      assert xs[n - 1] < xs[i] <==> ys[n - 1] > ys[i];
      assert xs[i] < xs[n - 1] <==> ys[i] > ys[n - 1];
    }
  }

  /** A strictly decreasing transform reflects every rank: r becomes n + 1 - r. */
  lemma RanksReversed(xs: seq<real>, ys: seq<real>, i: nat)
    requires ReverseOrder(xs, ys) && i < |xs|
    ensures RankOf(ys, i) == (|xs| + 1) as real - RankOf(xs, i)
  {
    CountsReverseOrder(xs, ys, i, |xs|);
  }

  // ----- Pearson and Spearman

  /** The quotient of the three sums; a constant series correlates with nothing. */
  function Correlate(sqrt: real -> real, sxx: real, syy: real, sxy: real): real {
    if sxx == 0.0 || syy == 0.0 then 0.0 else Ratio(sxy, sqrt(sxx * syy))
  }

  function Pearson(sqrt: real -> real, xs: seq<real>, ys: seq<real>): real
    requires xs != [] && |xs| == |ys|
  {
    var x, y, n := Value(xs), Value(ys), |xs|;
    Correlate(sqrt, CoSum(x, x, n), CoSum(y, y, n), CoSum(x, y, n))
  }

  function Spearman(sqrt: real -> real, xs: seq<real>, ys: seq<real>): real
    requires xs != [] && |xs| == |ys|
  {
    Pearson(sqrt, Ranks(xs), Ranks(ys))
  }

  /** The square root the formula divides by vanishes only in the two guarded cases. */
  lemma {:induction false} RootVanishes(sqrt: real -> real, xs: seq<real>, ys: seq<real>)
    requires IsSqrt(sqrt) && xs != [] && |xs| == |ys|
    ensures var sxx, syy := CoSum(Value(xs), Value(xs), |xs|), CoSum(Value(ys), Value(ys), |ys|);
            && sxx >= 0.0 && syy >= 0.0
            && (sqrt(sxx * syy) == 0.0 <==> sxx == 0.0 || syy == 0.0)
  {
    hide CoSum, Value;
    CoSumSelf(Value(xs), |xs|);
    CoSumSelf(Value(ys), |ys|);
    RootOfProduct(sqrt, CoSum(Value(xs), Value(xs), |xs|), CoSum(Value(ys), Value(ys), |ys|));
  }

  lemma RootOfProduct(sqrt: real -> real, a: real, b: real)
    requires IsSqrt(sqrt) && a >= 0.0 && b >= 0.0
    ensures sqrt(a * b) == 0.0 <==> a == 0.0 || b == 0.0
  {
    var p := a * b;
    assert p >= 0.0;
    SquareZero(sqrt(p), p);
    ProductZero(a, b, p);
  }

  lemma SquareZero(r: real, p: real)
    requires p == r * r
    ensures p == 0.0 <==> r == 0.0
  {
    if r != 0.0 {
      PositiveSquare(r, p);
    }
  }

  lemma ProductZero(a: real, b: real, p: real)
    requires p == a * b
    ensures p == 0.0 <==> a == 0.0 || b == 0.0
  {
  }

  /** Cauchy-Schwarz: a correlation never leaves [-1, 1]. */
  lemma {:induction false} PearsonBounded(sqrt: real -> real, xs: seq<real>, ys: seq<real>)
    requires IsSqrt(sqrt) && xs != [] && |xs| == |ys|
    ensures -1.0 <= Pearson(sqrt, xs, ys) <= 1.0
  {
    hide CoSum, Value, Correlate, IsSqrt;
    var x, y, n := Value(xs), Value(ys), |xs|;
    CoSumSelf(x, n);
    CoSumSelf(y, n);
    CoSumCauchy(x, y, n);
    CorrelateBounded(sqrt, CoSum(x, x, n), CoSum(y, y, n), CoSum(x, y, n));
  }

  lemma CorrelateBounded(sqrt: real -> real, a: real, b: real, c: real)
    requires IsSqrt(sqrt) && a >= 0.0 && b >= 0.0 && c * c <= a * b
    ensures -1.0 <= Correlate(sqrt, a, b, c) <= 1.0
  {
    hide Ratio, IsSqrt;
    RootBound(sqrt, c, a * b);
  }

  lemma RootBound(sqrt: real -> real, c: real, p: real)
    requires IsSqrt(sqrt) && p >= 0.0 && c * c <= p
    ensures -1.0 <= Ratio(c, sqrt(p)) <= 1.0
  {
    var root := sqrt(p);
    assert root >= 0.0 && root * root == p;
    RootOrder(c, root);
    assert (-c) * (-c) == c * c;
    RootOrder(-c, root);
    if root != 0.0 {
      var q := c / root;
      assert q * root == c;
      DivideOrder(q, 1.0, root);
      DivideOrder(-1.0, q, root);
    }
  }

  /** The rank correlation of two series sees only their orders. */
  lemma SpearmanInvariant(sqrt: real -> real, xs: seq<real>, ys: seq<real>, xs': seq<real>, ys': seq<real>)
    requires xs != [] && |xs| == |ys| && SameOrder(xs, xs') && SameOrder(ys, ys')
    ensures Spearman(sqrt, xs', ys') == Spearman(sqrt, xs, ys)
  {
    hide Pearson, RankOf;
    RanksInvariant(xs, xs');
    RanksInvariant(ys, ys');
  }

  lemma {:induction false} CoSumReflected(xs: seq<real>, xs': seq<real>, ys: seq<real>, c: real)
    requires xs != [] && |xs| == |xs'| == |ys|
    requires forall i | 0 <= i < |xs| :: xs'[i] == c - xs[i]
    ensures CoSum(Value(xs'), Value(ys), |xs|) == -CoSum(Value(xs), Value(ys), |xs|)
    ensures CoSum(Value(xs'), Value(xs'), |xs|) == CoSum(Value(xs), Value(xs), |xs|)
  {
    ReflectedDev(xs, xs', c);
    hide Dev, Value, CoDev;
    var x, x', y, n := Value(xs), Value(xs'), Value(ys), |xs|;
    forall t | 0 <= t < n
      ensures CoDev(x', y, n)(t) == -1.0 * CoDev(x, y, n)(t) && CoDev(x, x, n)(t) == CoDev(x', x', n)(t)
    {
      NegatedTerms(x, x', y, n, t);
    }
    SumScale(-1.0, CoDev(x, y, n), CoDev(x', y, n), 0, n);
    SumSame(CoDev(x, x, n), CoDev(x', x', n), 0, n);
  }

  lemma NegatedTerms(x: int -> real, x': int -> real, y: int -> real, n: nat, t: int)
    requires n > 0 && Dev(x', n)(t) == -Dev(x, n)(t)
    ensures CoDev(x', y, n)(t) == -1.0 * CoDev(x, y, n)(t)
    ensures CoDev(x, x, n)(t) == CoDev(x', x', n)(t)
  {
    hide Dev;
    var d, d', e := Dev(x, n)(t), Dev(x', n)(t), Dev(y, n)(t);
    NegateFirst(d, e);
    NegateBoth(d);
    assert d' * e == (-d) * e && d' * d' == (-d) * (-d);
  }

  /** Reflecting a series about any constant negates its deviations, and so its correlation. */
  lemma {:induction false} PearsonReflected(sqrt: real -> real, xs: seq<real>, xs': seq<real>, ys: seq<real>, c: real)
    requires xs != [] && |xs| == |xs'| == |ys|
    requires forall i | 0 <= i < |xs| :: xs'[i] == c - xs[i]
    ensures Pearson(sqrt, xs', ys) == -Pearson(sqrt, xs, ys)
  {
    CoSumReflected(xs, xs', ys, c);
    PearsonNegated(sqrt, xs, xs', ys);
  }

  lemma {:induction false} PearsonNegated(sqrt: real -> real, xs: seq<real>, xs': seq<real>, ys: seq<real>)
    requires xs != [] && |xs| == |xs'| == |ys|
    requires CoSum(Value(xs'), Value(ys), |xs|) == -CoSum(Value(xs), Value(ys), |xs|)
    requires CoSum(Value(xs'), Value(xs'), |xs|) == CoSum(Value(xs), Value(xs), |xs|)
    ensures Pearson(sqrt, xs', ys) == -Pearson(sqrt, xs, ys)
  {
    hide CoSum, Value, Correlate;
    var x, y, n := Value(xs), Value(ys), |xs|;
    CorrelateNegated(sqrt, CoSum(x, x, n), CoSum(y, y, n), CoSum(x, y, n), CoSum(Value(xs'), y, n));
  }

  lemma CorrelateNegated(sqrt: real -> real, a: real, b: real, c: real, c': real)
    requires c' == -c
    ensures Correlate(sqrt, a, b, c') == -Correlate(sqrt, a, b, c)
  {
    hide Ratio;
    NegatedQuotient(c, c', sqrt(a * b));
  }

  lemma NegateFirst(x: real, y: real)
    ensures (-x) * y == -1.0 * (x * y)
  {
  }

  lemma NegateBoth(x: real)
    ensures (-x) * (-x) == x * x
  {
  }

  lemma NegatedQuotient(x: real, y: real, d: real)
    requires y == -x
    ensures Ratio(y, d) == -Ratio(x, d)
  {
    if d != 0.0 {
      var p, q := x / d, y / d;
      assert p * d == x && q * d == y;
      Cancel(q, -p, d);
    }
  }

  lemma {:induction false} ReflectedDev(xs: seq<real>, xs': seq<real>, c: real)
    requires xs != [] && |xs| == |xs'|
    requires forall i | 0 <= i < |xs| :: xs'[i] == c - xs[i]
    ensures forall t | 0 <= t < |xs| :: Dev(Value(xs'), |xs|)(t) == -Dev(Value(xs), |xs|)(t)
  {
    var n := |xs|;
    var all: int -> real := t => c;
    SumAdd(Value(xs), Value(xs'), all, 0, n);
    SumConstant(all, c, 0, n);
    ReflectedMean(Sum(Value(xs), 0, n), Sum(Value(xs'), 0, n), c, n);
  }

  lemma ReflectedMean(s: real, s': real, c: real, n: nat)
    requires n > 0 && s + s' == n as real * c
    ensures s' / n as real == c - s / n as real
  {
    var k := n as real;
    var m, m' := s / k, s' / k;
    assert m * k == s && m' * k == s';
    Cancel(m', c - m, k);
  }

  /** Reversing one order negates the rank correlation. */
  lemma SpearmanReversed(sqrt: real -> real, xs: seq<real>, xs': seq<real>, ys: seq<real>)
    requires xs != [] && |xs| == |ys| && ReverseOrder(xs, xs')
    ensures |xs'| == |xs| && Spearman(sqrt, xs', ys) == -Spearman(sqrt, xs, ys)
  {
    hide Pearson;
    forall i | 0 <= i < |xs| ensures Ranks(xs')[i] == (|xs| + 1) as real - Ranks(xs)[i] {
      RanksReversed(xs, xs', i);
    }
    PearsonReflected(sqrt, Ranks(xs), Ranks(xs'), Ranks(ys), (|xs| + 1) as real);
  }
}
