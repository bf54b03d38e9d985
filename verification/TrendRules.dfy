/** strategy/trend_rules.py: causal long/flat position rules. */
module TrendRules {
  import opened Market
  import opened Trigger1H

  /** Long exactly when the close beats the mean of the last `period` closes. */
  function SmaPosition(closes: seq<real>, period: nat, i: nat): int
    requires 1 <= period && i < |closes|
  {
    if i >= period - 1 && closes[i] > Total(closes, i + 1 - period, i + 1) / period as real then 1 else 0
  }

  function TsmomPosition(closes: seq<real>, lookback: nat, i: nat): int
    requires i < |closes|
  {
    if i >= lookback && closes[i] > closes[i - lookback] then 1 else 0
  }

  lemma {:induction false} TotalDropFirst(xs: seq<real>, lo: nat, hi: nat)
    requires lo < hi <= |xs|
    ensures Total(xs, lo, hi) == xs[lo] + Total(xs, lo + 1, hi)
    decreases hi
  {
    if lo + 1 < hi {
      TotalDropFirst(xs, lo, hi - 1);
    } else {
      assert Total(xs, lo, lo) == 0.0 == Total(xs, lo + 1, lo + 1);
    }
  }

  lemma NothingSummed(xs: seq<real>)
    ensures Total(xs, 0, 0) == 0.0
  {
  }

  lemma OneMoreSummed(xs: seq<real>, lo: nat, hi: nat)
    requires lo <= hi < |xs|
    ensures Total(xs, lo, hi + 1) == Total(xs, lo, hi) + xs[hi]
  {
  }

  /** The running sum drops the close that leaves the window, so it is the window's sum. */
  method SmaPositions(cs: seq<Candle>, period: nat) returns (pos: seq<int>)
    requires 1 <= period
    ensures |pos| == |cs|
    ensures forall i | 0 <= i < |cs| :: pos[i] == SmaPosition(Closes(cs), period, i)
  {
    hide Total;
    var closes := Closes(cs);
    pos := seq(|closes|, _ => 0);
    var running := 0.0;
    NothingSummed(closes);
    for i := 0 to |closes|
      invariant |pos| == |cs|
      invariant running == Total(closes, if i < period then 0 else i - period, i)
      invariant forall k | 0 <= k < i :: pos[k] == SmaPosition(closes, period, k)
      invariant forall k | i <= k < |pos| :: pos[k] == 0
    {
      var px := closes[i];
      running := running + px;
      OneMoreSummed(closes, if i < period then 0 else i - period, i);
      if i >= period {
        TotalDropFirst(closes, i - period, i + 1);
        running := running - closes[i - period];
      }
      if i >= period - 1 {
        pos := pos[i := if px > running / period as real then 1 else 0];
      }
    }
  }

  function TsmomPositions(cs: seq<Candle>, lookback: nat): (pos: seq<int>)
    ensures |pos| == |cs|
    ensures forall i | 0 <= i < |cs| :: pos[i] == TsmomPosition(Closes(cs), lookback, i)
  {
    var closes := Closes(cs);
    seq(|closes|, i requires 0 <= i < |closes| => TsmomPosition(closes, lookback, i))
  }

  // ----- independence of where the window starts

  lemma {:induction false} TotalShift(xs: seq<real>, a: nat, b: nat, lo: nat, hi: nat)
    requires a <= b <= |xs| && lo <= hi <= b - a
    ensures Total(xs[a..b], lo, hi) == Total(xs, a + lo, a + hi)
  {
    if lo < hi {
      TotalShift(xs, a, b, lo, hi - 1);
    }
  }

  lemma ClosesShift(cs: seq<Candle>, a: nat, b: nat)
    requires a <= b <= |cs|
    ensures Closes(cs[a..b]) == Closes(cs)[a..b]
  {
  }

  /** Once a rule's own lookback lies inside the window, its decision is the decision taken
      on the whole history. */
  lemma {:induction false} WindowShift(cs: seq<Candle>, a: nat, b: nat, n: nat, j: nat)
    requires a <= b <= |cs| && j < b - a && 1 <= n <= j
    ensures SmaPosition(Closes(cs[a..b]), n, j) == SmaPosition(Closes(cs), n, a + j)
    ensures TsmomPosition(Closes(cs[a..b]), n, j) == TsmomPosition(Closes(cs), n, a + j)
  {
    ClosesShift(cs, a, b);
    TotalShift(Closes(cs), a, b, j + 1 - n, j + 1);
  }
}
