/** strategy/trigger_1h.py: the clamped Fisher recursion and the moving average. The natural
    logarithm is a parameter; what is assumed of it is named where it is needed. */
module Trigger1H {
  import opened Market
  import opened Reals

  const FISHER_PERIOD: nat := 10
  const CLAMP: real := 0.999

  /** The pair (x, fisher) the loop carries from bar to bar. */
  datatype Filter = Filter(x: real, f: real)

  function Raw(cs: seq<Candle>, period: nat, i: nat): real
    requires 1 <= period <= i + 1 <= |cs|
  {
    var hi := HighestHigh(cs, i + 1 - period, i + 1);
    var lo := LowestLow(cs, i + 1 - period, i + 1);
    var mid := (cs[i].high + cs[i].low) / 2.0;
    if hi == lo then 0.0 else 2.0 * ((mid - lo) / (hi - lo) - 0.5)
  }

  function Smooth(raw: real, x: real): (r: real)
    ensures -CLAMP <= r <= CLAMP
  {
    Max(Min(0.33 * raw + 0.67 * x, CLAMP), -CLAMP)
  }

  function HalfLogOdds(ln: real -> real, x: real): real
    requires x != 1.0
  {
    0.5 * ln((1.0 + x) / (1.0 - x))
  }

  function Advance(ln: real -> real, raw: real, s: Filter): Filter {
    var x := Smooth(raw, s.x);
    Filter(x, HalfLogOdds(ln, x) + 0.5 * s.f)
  }

  /** The filter after the first n bars: it starts moving once `period` bars are there. */
  function FilterAfter(ln: real -> real, cs: seq<Candle>, period: nat, n: nat): Filter
    requires 1 <= period && n <= |cs|
  {
    if n < period then Filter(0.0, 0.0)
    else Advance(ln, Raw(cs, period, n - 1), FilterAfter(ln, cs, period, n - 1))
  }

  function FisherAt(ln: real -> real, cs: seq<Candle>, period: nat, i: nat): real
    requires 1 <= period && i < |cs|
  {
    FilterAfter(ln, cs, period, i + 1).f
  }

  method FisherTransform(ln: real -> real, cs: seq<Candle>, period: nat)
    returns (fisher: seq<real>, trigger: seq<real>)
    requires 1 <= period
    ensures |fisher| == |cs|
    ensures forall i | 0 <= i < |cs| :: fisher[i] == FisherAt(ln, cs, period, i)
    ensures trigger == [0.0] + fisher[..if |fisher| == 0 then 0 else |fisher| - 1]
  {
    fisher := [];
    var xPrev, fisherPrev := 0.0, 0.0;
    for i := 0 to |cs|
      invariant |fisher| == i
      invariant Filter(xPrev, fisherPrev) == FilterAfter(ln, cs, period, i)
      invariant forall k | 0 <= k < i :: fisher[k] == FisherAt(ln, cs, period, k)
    {
      if i < period - 1 {
        fisher := fisher + [0.0];
      } else {
        var hi := HighestHigh(cs, i + 1 - period, i + 1);
        var lo := LowestLow(cs, i + 1 - period, i + 1);
        var mid := (cs[i].high + cs[i].low) / 2.0;
        var raw := if hi == lo then 0.0 else 2.0 * ((mid - lo) / (hi - lo) - 0.5);
        var x := 0.33 * raw + 0.67 * xPrev;
        x := Max(Min(x, 0.999), -0.999);
        var f := 0.5 * ln((1.0 + x) / (1.0 - x)) + 0.5 * fisherPrev;
        fisher := fisher + [f];
        xPrev, fisherPrev := x, f;
      }
    }
    trigger := [0.0] + fisher[..if |fisher| == 0 then 0 else |fisher| - 1];
  }

  /** Causality: the filter after n bars reads only those n bars. */
  lemma {:induction false} FilterPrefix(ln: real -> real, cs: seq<Candle>, m: nat, period: nat, n: nat)
    requires 1 <= period && n <= m <= |cs|
    ensures FilterAfter(ln, cs[..m], period, n) == FilterAfter(ln, cs, period, n)
  {
    if n >= period {
      FilterPrefix(ln, cs, m, period, n - 1);
      ExtremesPrefix(cs, m, n - period, n);
    }
  }

  /** A logarithm turns products of positive numbers into sums. */
  ghost predicate IsLog(ln: real -> real) {
    forall x, y | 0.0 < x && 0.0 < y :: ln(x * y) == ln(x) + ln(y)
  }

  ghost predicate Increasing(ln: real -> real) {
    forall x, y | 0.0 < x <= y :: ln(x) <= ln(y)
  }

  lemma LogOfInverse(ln: real -> real, p: real, q: real)
    requires IsLog(ln) && p > 0.0 && q > 0.0
    ensures ln(q / p) == -ln(p / q)
  {
    LogOfReciprocal(ln, p / q, q / p);
  }

  lemma LogOfReciprocal(ln: real -> real, a: real, b: real)
    requires IsLog(ln) && a > 0.0 && b > 0.0 && a * b == 1.0
    ensures ln(b) == -ln(a)
  {
    assert ln(1.0 * 1.0) == ln(1.0) + ln(1.0);
    assert ln(a * b) == ln(a) + ln(b);
  }

  lemma HalfLogOddsOdd(ln: real -> real, x: real)
    requires IsLog(ln) && -1.0 < x < 1.0
    ensures HalfLogOdds(ln, -x) == -HalfLogOdds(ln, x)
  {
    LogOfInverse(ln, 1.0 + x, 1.0 - x);
    assert 1.0 + (-x) == 1.0 - x && 1.0 - (-x) == 1.0 + x;
  }

  lemma HalfLogOddsIncreasing(ln: real -> real, x: real, y: real)
    requires Increasing(ln) && -1.0 < x <= y < 1.0
    ensures HalfLogOdds(ln, x) <= HalfLogOdds(ln, y)
  {
    QuotientOrder(1.0 + x, 1.0 - x, 1.0 + y, 1.0 - y);
    assert (1.0 + x) / (1.0 - x) > 0.0;
  }

  lemma HalfLogOddsBounded(ln: real -> real, x: real)
    requires IsLog(ln) && Increasing(ln) && -CLAMP <= x <= CLAMP
    ensures -HalfLogOdds(ln, CLAMP) <= HalfLogOdds(ln, x) <= HalfLogOdds(ln, CLAMP)
  {
    HalfLogOddsOdd(ln, CLAMP);
    HalfLogOddsIncreasing(ln, x, CLAMP);
    HalfLogOddsIncreasing(ln, -CLAMP, x);
  }

  /** The repaired filter cannot run away: every value lies within the recursive ceiling
      ln(1999), about 7.6, on any price history whatever. */
  lemma {:induction false} FisherBounded(ln: real -> real, cs: seq<Candle>, period: nat, n: nat)
    requires IsLog(ln) && Increasing(ln) && 1 <= period && n <= |cs|
    ensures -ln(1999.0) <= FilterAfter(ln, cs, period, n).f <= ln(1999.0)
  {
    HalfLogOddsBounded(ln, 0.0);
    assert HalfLogOdds(ln, CLAMP) == 0.5 * ln(1999.0);
    if n >= period {
      FisherBounded(ln, cs, period, n - 1);
      HalfLogOddsBounded(ln, FilterAfter(ln, cs, period, n).x);
    }
  }

  /** Reflection negates the raw oscillator, */
  lemma RawMirror(K: real, cs: seq<Candle>, period: nat, i: nat)
    requires 1 <= period <= i + 1 <= |cs|
    ensures Raw(Mirror(K, cs), period, i) == -Raw(cs, period, i)
  {
    ExtremesMirror(K, cs, i + 1 - period, i + 1);
    var hi := HighestHigh(cs, i + 1 - period, i + 1);
    var lo := LowestLow(cs, i + 1 - period, i + 1);
    var mid := (cs[i].high + cs[i].low) / 2.0;
    if hi != lo {
      ShareOfWhole(mid - lo, hi - lo);
      assert ((K - cs[i].low) + (K - cs[i].high)) / 2.0 - (K - hi) == (hi - lo) - (mid - lo);
    }
  }

  lemma AdvanceMirror(ln: real -> real, raw: real, s: Filter)
    requires IsLog(ln)
    ensures Advance(ln, -raw, Filter(-s.x, -s.f)) == Filter(-Advance(ln, raw, s).x, -Advance(ln, raw, s).f)
  {
    HalfLogOddsOdd(ln, Smooth(raw, s.x));
  }

  /** and with it the whole Fisher line. */
  lemma {:induction false} FisherMirror(ln: real -> real, K: real, cs: seq<Candle>, period: nat, n: nat)
    requires IsLog(ln) && 1 <= period && n <= |cs|
    ensures var s := FilterAfter(ln, cs, period, n);
            FilterAfter(ln, Mirror(K, cs), period, n) == Filter(-s.x, -s.f)
  {
    hide IsLog, Raw, Advance, Mirror;
    if n >= period {
      hide FilterAfter;
      FisherMirror(ln, K, cs, period, n - 1);
      RawMirror(K, cs, period, n - 1);
      AdvanceMirror(ln, Raw(cs, period, n - 1), FilterAfter(ln, cs, period, n - 1));
    }
  }

  // ----- simple moving average

  function Total(xs: seq<real>, lo: nat, hi: nat): real
    requires lo <= hi <= |xs|
  {
    if lo == hi then 0.0 else Total(xs, lo, hi - 1) + xs[hi - 1]
  }

  /** Until the window fills the values pass through. */
  function SmaAt(xs: seq<real>, period: nat, i: nat): real
    requires 1 <= period && i < |xs|
  {
    if i < period - 1 then xs[i] else Total(xs, i + 1 - period, i + 1) / period as real
  }

  method Sma(xs: seq<real>, period: nat) returns (out: seq<real>)
    requires 1 <= period
    ensures |out| == |xs|
    ensures forall i | 0 <= i < |xs| :: out[i] == SmaAt(xs, period, i)
  {
    out := [];
    for i := 0 to |xs|
      invariant |out| == i
      invariant forall k | 0 <= k < i :: out[k] == SmaAt(xs, period, k)
    {
      if i < period - 1 {
        out := out + [xs[i]];
      } else {
        out := out + [Total(xs, i + 1 - period, i + 1) / period as real];
      }
    }
  }

  lemma {:induction false} TotalPrefix(xs: seq<real>, m: nat, lo: nat, hi: nat)
    requires lo <= hi <= m <= |xs|
    ensures Total(xs[..m], lo, hi) == Total(xs, lo, hi)
  {
    if lo < hi {
      TotalPrefix(xs, m, lo, hi - 1);
    }
  }
}
