/** strategy/atr.py: Wilder's average true range. */
module Atr {
  import opened Market

  const ATR_PERIOD: nat := 14

  function TrueRange(cs: seq<Candle>, i: nat): (r: real)
    requires 1 <= i < |cs|
    ensures r >= 0.0
  {
    var prev := cs[i - 1].close;
    Max(Max(cs[i].high - cs[i].low, Abs(cs[i].high - prev)), Abs(cs[i].low - prev))
  }

  function RangeSum(cs: seq<Candle>, n: nat): (r: real)
    requires n < |cs|
    ensures r >= 0.0
  {
    if n == 0 then 0.0 else RangeSum(cs, n - 1) + TrueRange(cs, n)
  }

  /** Zero through the warm-up, the mean of the first `period` true ranges, then smoothing. */
  function AtrAt(cs: seq<Candle>, period: nat, i: nat): (r: real)
    requires 1 <= period && i < |cs|
    ensures r >= 0.0
  {
    if i < period then 0.0
    else if i == period then RangeSum(cs, period) / period as real
    else SmoothRange(AtrAt(cs, period, i - 1), period, TrueRange(cs, i))
  }

  function SmoothRange(atr: real, period: nat, tr: real): (r: real)
    requires 1 <= period
    ensures atr >= 0.0 && tr >= 0.0 ==> r >= 0.0
    ensures atr > 0.0 && tr >= 0.0 && period > 1 ==> r > 0.0
  {
    var k := (period - 1) as real;
    if atr >= 0.0 && tr >= 0.0 then
      assert atr * k >= 0.0;
      assert atr > 0.0 && k > 0.0 ==> atr * k > 0.0;
      (atr * k + tr) / period as real
    else (atr * k + tr) / period as real
  }

  method TrueRanges(cs: seq<Candle>) returns (trs: seq<real>)
    requires cs != []
    ensures |trs| == |cs| && trs[0] == 0.0
    ensures forall i | 1 <= i < |cs| :: trs[i] == TrueRange(cs, i)
  {
    trs := [0.0];
    for i := 1 to |cs|
      invariant |trs| == i && trs[0] == 0.0
      invariant forall k | 1 <= k < i :: trs[k] == TrueRange(cs, k)
    {
      var h, lo, prevClose := cs[i].high, cs[i].low, cs[i - 1].close;
      trs := trs + [Max(Max(h - lo, Abs(h - prevClose)), Abs(lo - prevClose))];
    }
  }

  method WilderAtr(cs: seq<Candle>, period: int) returns (r: Result<seq<real>>)
    ensures r.Err? <==> period < 1
    ensures r.Ok? ==> |r.value| == |cs|
                      && forall i | 0 <= i < |cs| :: r.value[i] == AtrAt(cs, period, i)
  {
    hide TrueRange, SmoothRange;
    if period < 1 {
      return Err("period must be >= 1");
    }
    var n := |cs|;
    if n < period + 1 {
      return Ok(seq(n, _ => 0.0));
    }
    var trueRanges := TrueRanges(cs);
    var sum := 0.0;
    for i := 1 to period + 1
      invariant sum == RangeSum(cs, i - 1)
    {
      sum := sum + trueRanges[i];
    }
    var atr := sum / period as real;
    var out := seq(period, _ => 0.0) + [atr];
    for i := period + 1 to n
      invariant |out| == i
      invariant atr == AtrAt(cs, period, i - 1)
      invariant forall k | 0 <= k < i :: out[k] == AtrAt(cs, period, k)
    {
      atr := SmoothRange(atr, period, trueRanges[i]);
      out := out + [atr];
    }
    r := Ok(out);
  }

  lemma {:induction false} RangeSumPrefix(cs: seq<Candle>, m: nat, n: nat)
    requires n < m <= |cs|
    ensures RangeSum(cs[..m], n) == RangeSum(cs, n)
  {
    if n > 0 {
      RangeSumPrefix(cs, m, n - 1);
    }
  }

  /** Causality: bar i uses only bars up to i. */
  lemma {:induction false} AtrPrefix(cs: seq<Candle>, m: nat, period: nat, i: nat)
    requires 1 <= period && i < m <= |cs|
    ensures AtrAt(cs[..m], period, i) == AtrAt(cs, period, i)
  {
    if i == period {
      RangeSumPrefix(cs, m, period);
    } else if i > period {
      AtrPrefix(cs, m, period, i - 1);
    }
  }

  lemma TrueRangeMirror(K: real, cs: seq<Candle>, i: nat)
    requires 1 <= i < |cs|
    ensures TrueRange(Mirror(K, cs), i) == TrueRange(cs, i)
  {
  }

  lemma {:induction false} RangeSumMirror(K: real, cs: seq<Candle>, n: nat)
    requires n < |cs|
    ensures RangeSum(Mirror(K, cs), n) == RangeSum(cs, n)
  {
    hide TrueRange, Mirror;
    if n > 0 {
      RangeSumMirror(K, cs, n - 1);
      TrueRangeMirror(K, cs, n);
    }
  }

  /** Reflection leaves every true range, and so the ATR, unchanged. */
  lemma {:induction false} AtrMirror(K: real, cs: seq<Candle>, period: nat, i: nat)
    requires 1 <= period && i < |cs|
    ensures AtrAt(Mirror(K, cs), period, i) == AtrAt(cs, period, i)
  {
    hide TrueRange, Mirror, RangeSum, SmoothRange;
    if i == period {
      RangeSumMirror(K, cs, period);
    } else if i > period {
      AtrMirror(K, cs, period, i - 1);
      TrueRangeMirror(K, cs, i);
    }
  }

  /** Once positive, always positive: smoothing keeps a (period-1)/period share. */
  lemma {:induction false} AtrStaysPositive(cs: seq<Candle>, period: nat, i: nat, j: nat)
    requires 2 <= period && i <= j < |cs|
    requires AtrAt(cs, period, i) > 0.0
    ensures AtrAt(cs, period, j) > 0.0
    decreases j
  {
    if i < j {
      AtrStaysPositive(cs, period, i, j - 1);
    }
  }
}
