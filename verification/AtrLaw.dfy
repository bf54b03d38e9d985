/** strategy/atr.py: the average true range in terms of the candles. */
module AtrLaw {
  import opened Market
  import opened Reals
  import opened Sums
  import opened Atr

  /** The widest of the bar's range and its two gaps from the close before. */
  predicate Widest(c: Candle, before: real, x: real) {
    && x >= c.high - c.low
    && x >= c.high - before && x >= before - c.high
    && x >= c.low - before && x >= before - c.low
    && (x == c.high - c.low || x == c.high - before || x == before - c.high || x == c.low - before
        || x == before - c.low)
  }

  lemma TrueRangeIs(cs: seq<Candle>, i: nat, x: real)
    requires 1 <= i < |cs|
    ensures Widest(cs[i], cs[i - 1].close, x) <==> x == TrueRange(cs, i)
  {
  }

  /** x lists the true ranges, from bar 1 on. */
  ghost predicate ListsRanges(x: int -> real, cs: seq<Candle>) {
    forall i | 1 <= i < |cs| :: Widest(cs[i], cs[i - 1].close, x(i))
  }

  lemma {:induction false} RangesAdd(x: int -> real, cs: seq<Candle>, n: nat)
    requires ListsRanges(x, cs) && n < |cs|
    ensures RangeSum(cs, n) == Sum(x, 1, n + 1)
  {
    if n > 0 {
      RangesAdd(x, cs, n - 1);
      TrueRangeIs(cs, n, x(n));
    }
  }

  /** Zero before bar `period`, then the mean of the true ranges so far, then the mean of period - 1
      times the value before and the bar's own true range. */
  lemma {:induction false} AtrIs(x: int -> real, cs: seq<Candle>, period: nat, i: nat)
    requires 1 <= period && i < |cs| && ListsRanges(x, cs)
    ensures i < period ==> AtrAt(cs, period, i) == 0.0
    ensures i == period ==> period as real * AtrAt(cs, period, i) == Sum(x, 1, period + 1)
    ensures i > period ==>
              period as real * AtrAt(cs, period, i) == (period - 1) as real * AtrAt(cs, period, i - 1) + x(i)
  {
    hide TrueRange, Sum, Widest, SmoothRange, RangeSum;
    if i == period {
      RangesAdd(x, cs, period);
      SeedIs(RangeSum(cs, period), period as real);
    } else if i > period {
      SmoothedIs(AtrAt(cs, period, i - 1), period, x(i));
      TrueRangeIs(cs, i, x(i));
    }
  }

  lemma SeedIs(sum: real, p: real)
    requires p > 0.0
    ensures p * (sum / p) == sum
  {
  }

  lemma SmoothedIs(atr: real, period: nat, tr: real)
    requires 1 <= period
    ensures period as real * SmoothRange(atr, period, tr) == (period - 1) as real * atr + tr
  {
  }

  /** So it stays between the narrowest and the widest true range of the bars it has seen. */
  lemma {:induction false} AtrWithin(x: int -> real, cs: seq<Candle>, period: nat, i: nat, lo: real, hi: real)
    requires 1 <= period <= i < |cs| && ListsRanges(x, cs)
    requires forall k | 1 <= k <= i :: lo <= x(k) <= hi
    ensures lo <= AtrAt(cs, period, i) <= hi
  {
    hide AtrAt, Widest;
    AtrIs(x, cs, period, i);
    var p, a := period as real, AtrAt(cs, period, i);
    if i == period {
      SumWithin(x, period, lo, hi);
      Between(p, a, lo, hi);
    } else {
      AtrWithin(x, cs, period, i - 1, lo, hi);
      MeanWithin((period - 1) as real, AtrAt(cs, period, i - 1), x(i), lo, hi);
      Between(p, a, lo, hi);
    }
  }

  lemma {:induction false} SumWithin(x: int -> real, n: nat, lo: real, hi: real)
    requires forall k | 1 <= k <= n :: lo <= x(k) <= hi
    ensures n as real * lo <= Sum(x, 1, n + 1) <= n as real * hi
  {
    if n > 0 {
      SumWithin(x, n - 1, lo, hi);
    }
  }

  lemma MeanWithin(k: real, a: real, b: real, lo: real, hi: real)
    requires k >= 0.0 && lo <= a <= hi && lo <= b <= hi
    ensures (k + 1.0) * lo <= k * a + b <= (k + 1.0) * hi
  {
    assert k * (a - lo) >= 0.0 && k * (hi - a) >= 0.0;
  }

  lemma Between(p: real, a: real, lo: real, hi: real)
    requires p > 0.0 && p * lo <= p * a <= p * hi
    ensures lo <= a <= hi
  {
    DivideOrder(lo, a, p);
    DivideOrder(a, hi, p);
  }
}
