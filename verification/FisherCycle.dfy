/** strategy/fisher_cycle.py: the daily bias without lookahead and the pure decisions of the
    cycle machine. */
module FisherCycle {
  import opened Market
  import opened Bias4H

  /** [c for c in daily if c.close_time_ms <= ts] */
  function Visible(daily: seq<Candle>, ts: int): seq<Candle> {
    if daily == [] then [] else
    Visible(daily[..|daily| - 1], ts)
    + if daily[|daily| - 1].closeTime <= ts then [daily[|daily| - 1]] else []
  }

  function DailyBiasAt(daily: seq<Candle>, ts: int): Bias {
    ComputeBias(Visible(daily, ts), FRACTAL_WIDTH, SR_LOOKBACK).bias
  }

  function LegStop(direction: Direction, entry: real, atr: real, multiplier: real): real {
    var offset := multiplier * atr;
    if direction == Long then entry - offset else entry + offset
  }

  function OpeningDirection(bias: Bias, fisher: real, threshold: real): Option<Direction> {
    if bias == Bullish && fisher <= -threshold then Some(Long)
    else if bias == Bearish && fisher >= threshold then Some(Short)
    else None
  }

  predicate IsExhausted(direction: Direction, fisher: real, threshold: real) {
    if direction == Long then fisher >= threshold else fisher <= -threshold
  }

  /** The bias is no longer the one the cycle opened under; no cycle counts as broken. */
  predicate MacroBroken(macro: Option<Bias>, bias: Bias) {
    macro != Some(bias)
  }

  // ----- what can be seen

  /** On a chronological list the visible bars are a prefix, of the bars that had closed. */
  lemma {:induction false} VisiblePrefix(daily: seq<Candle>, ts: int) returns (k: nat)
    requires Chronological(daily)
    ensures k <= |daily| && Visible(daily, ts) == daily[..k]
    ensures forall i | 0 <= i < |daily| :: i < k <==> daily[i].closeTime <= ts
  {
    if daily == [] {
      k := 0;
    } else if daily[|daily| - 1].closeTime <= ts {
      k := |daily|;
      ClosedPrefix(daily, ts, k);
    } else {
      var init := daily[..|daily| - 1];
      k := VisiblePrefix(init, ts);
      assert forall i | 0 <= i < |init| :: init[i] == daily[i];
      ClosedPrefix(daily, ts, k);
    }
  }

  lemma {:induction false} ClosedPrefix(daily: seq<Candle>, ts: int, k: nat)
    requires k <= |daily| && forall j | 0 <= j < |daily| :: j < k <==> daily[j].closeTime <= ts
    ensures Visible(daily, ts) == daily[..k]
  {
    if k == |daily| {
      AllVisible(daily, ts);
      assert daily[..k] == daily;
    } else {
      var init := daily[..|daily| - 1];
      ClosedPrefix(init, ts, k);
      assert init[..k] == daily[..k];
    }
  }

  lemma {:induction false} AllVisible(daily: seq<Candle>, ts: int)
    requires forall i | 0 <= i < |daily| :: daily[i].closeTime <= ts
    ensures Visible(daily, ts) == daily
  {
    if daily != [] {
      AllVisible(daily[..|daily| - 1], ts);
    }
  }

  /** Looking from an earlier time only drops bars that closed in between. */
  lemma {:induction false} VisibleEarlier(daily: seq<Candle>, ts: int, later: int)
    requires ts <= later
    ensures Visible(Visible(daily, later), ts) == Visible(daily, ts)
  {
    if daily != [] {
      VisibleEarlier(daily[..|daily| - 1], ts, later);
      var seen := Visible(daily[..|daily| - 1], later);
      assert (seen + [daily[|daily| - 1]])[..|seen|] == seen && seen + [] == seen;
    }
  }

  lemma {:induction false} VisibleMirror(K: real, daily: seq<Candle>, ts: int)
    ensures Visible(Mirror(K, daily), ts) == Mirror(K, Visible(daily, ts))
  {
    if daily != [] {
      assert Mirror(K, daily)[..|daily| - 1] == Mirror(K, daily[..|daily| - 1]);
      VisibleMirror(K, daily[..|daily| - 1], ts);
    }
  }
}
