/** scripts/factor_correlation_study.py: the conditional mean, its hit rate and its variance as sums
    over all rows, in terms of the returns and of the rows that fire. */
module CellLaw {
  import opened Market
  import opened Sums
  import opened NeweyWest

  // ----- the rows

  /** Without a condition every row fires; one more condition leaves the rows where it is true. */
  lemma FiredIs(cell: seq<nat>, arrays: seq<seq<Option<bool>>>, c: nat, n: nat, p: nat)
    ensures p in FiredPositions([], arrays, n) <==> p < n
    ensures p in FiredPositions(cell + [c], arrays, n)
            <==> p in FiredPositions(cell, arrays, n)
                 && c < |arrays| && p < |arrays[c]| && arrays[c][p].Some? && arrays[c][p].value
  {
    hide FiredPositions;
    assert Fires([], arrays, p);
    FiresMore(cell, arrays, c, p);
    hide Fires;
  }

  lemma FiresMore(cell: seq<nat>, arrays: seq<seq<Option<bool>>>, c: nat, p: nat)
    ensures Fires(cell + [c], arrays, p)
            <==> Fires(cell, arrays, p) && c < |arrays| && p < |arrays[c]| && arrays[c][p].Some? && arrays[c][p].value
  {
    var more := cell + [c];
    assert more[|cell|] == c;
    if Fires(more, arrays, p) {
      forall k | 0 <= k < |cell|
        ensures cell[k] < |arrays| && p < |arrays[cell[k]]| && arrays[cell[k]][p] == Some(true)
      {
        assert more[k] == cell[k];
      }
    }
  }

  // ----- mean and hit rate

  /** One per fired row; its return; one if that is a gain; zero on the other rows. */
  function Count(fired: seq<int>): int -> real {
    t => if t in fired then 1.0 else 0.0
  }

  function Return(fired: seq<int>, rets: seq<real>): int -> real {
    t => if t in fired && 0 <= t < |rets| then rets[t] else 0.0
  }

  function Gains(fired: seq<int>, rets: seq<real>): int -> real {
    t => if t in fired && 0 <= t < |rets| && rets[t] > 0.0 then 1.0 else 0.0
  }

  lemma {:induction false} SumsAre(fired: seq<int>, rets: seq<real>)
    requires Distinct(fired) && InRange(fired, |rets|)
    ensures |fired| as real == Sum(Count(fired), 0, |rets|)
    ensures ValueSum(fired, rets) == Sum(Return(fired, rets), 0, |rets|)
    ensures Hits(fired, rets) as real == Sum(Gains(fired, rets), 0, |rets|)
    decreases |fired|
  {
    var n := |rets|;
    if fired == [] {
      SumZero(Count(fired), 0, n);
      SumZero(Return(fired, rets), 0, n);
      SumZero(Gains(fired, rets), 0, n);
    } else {
      var init, p := fired[..|fired| - 1], fired[|fired| - 1];
      SumsAre(init, rets);
      assert p !in init && forall t | t != p :: t in fired <==> t in init;
      SumOneMore(Count(init), Count(fired), p, 0, n);
      SumOneMore(Return(init, rets), Return(fired, rets), p, 0, n);
      SumOneMore(Gains(init, rets), Gains(fired, rets), p, 0, n);
    }
  }

  /** The mean times the number of fired rows is the sum of their returns, and the hits are the fired
      rows with a gain. */
  lemma MeanIs(fired: seq<int>, rets: seq<real>)
    requires fired != [] && Distinct(fired) && InRange(fired, |rets|)
    ensures Mean(fired, rets) * Sum(Count(fired), 0, |rets|) == Sum(Return(fired, rets), 0, |rets|)
    ensures Hits(fired, rets) as real == Sum(Gains(fired, rets), 0, |rets|)
    ensures |fired| as real == Sum(Count(fired), 0, |rets|)
  {
    hide Sum, Count, Return, Gains, Hits, ValueSum;
    SumsAre(fired, rets);
  }

  // ----- the variance

  /** A fired row's return less the mean, zero on the other rows. */
  function Deviation(fired: seq<int>, rets: seq<real>, mu: real): int -> real {
    t => if t in fired && 0 <= t < |rets| then rets[t] - mu else 0.0
  }

  /** The sum of the k values from row s on, squared. */
  function SquareFrom(d: int -> real, s: int, k: nat): real {
    Sum(i => d(s + i), 0, k) * Sum(i => d(s + i), 0, k)
  }

  lemma {:induction false} WindowIs(fired: seq<int>, rets: seq<real>, mu: real, s: int, k: nat)
    requires InRange(fired, |rets|)
    ensures Squared(Demeaned(fired, rets, mu), k)(s) == SquareFrom(Deviation(fired, rets, mu), s, k)
  {
    hide Sum, Deviation;
    var u, d := Demeaned(fired, rets, mu), Deviation(fired, rets, mu);
    forall t ensures At(u, t) == d(t) {
      DeviationIs(fired, rets, mu, t);
    }
    SumSame(i => At(u, s + i), i => d(s + i), 0, k);
  }

  lemma DeviationIs(fired: seq<int>, rets: seq<real>, mu: real, t: int)
    requires InRange(fired, |rets|)
    ensures At(Demeaned(fired, rets, mu), t) == Deviation(fired, rets, mu)(t)
  {
  }

  /** lag + 1 times the variance is the sum, over every run of lag + 1 neighbouring rows that meets the
      series, of the squared sum of their deviations. */
  lemma {:induction false} VarianceIs(fired: seq<int>, rets: seq<real>, mu: real, lag: nat)
    requires InRange(fired, |rets|)
    ensures var d := Deviation(fired, rets, mu);
            (lag + 1) as real * Bartlett(Demeaned(fired, rets, mu), lag, lag, |rets|)
            == Sum(s => SquareFrom(d, s, lag + 1), 0 - lag, |rets|)
  {
    hide Sum, SquareFrom, Deviation, Demeaned, Squared, Bartlett;
    var u, d := Demeaned(fired, rets, mu), Deviation(fired, rets, mu);
    BartlettIsSquares(u, lag, |rets|);
    var f: int -> real := s => SquareFrom(d, s, lag + 1);
    forall s | 0 - lag <= s < |rets| ensures Squared(u, lag + 1)(s) == f(s) {
      WindowIs(fired, rets, mu, s, lag + 1);
    }
    SumSame(Squared(u, lag + 1), f, 0 - lag, |rets|);
  }
}
