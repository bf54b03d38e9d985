/** backtest.py, simulate_outcome: what an outcome says of the candles and of the 4H Fisher series,
    written out over their fields. */
module OutcomeLaw {
  import opened Market
  import opened Signals
  import opened Outcome

  /** The bar trades at this price or beyond it, on the side where a trade this way loses; */
  predicate LosesAt(d: Direction, c: Candle, px: real) {
    if d == Long then c.low <= px else c.high >= px
  }

  /** and on the side where it wins. */
  predicate WinsAt(d: Direction, c: Candle, px: real) {
    if d == Long then c.high >= px else c.low <= px
  }

  predicate Extended(d: Direction, fisher: real, threshold: real) {
    if d == Long then fisher >= threshold else fisher <= -threshold
  }

  /** While bar j was trading a 4H bar closed in extended territory, the one before it outside. */
  ghost predicate TurnedDuring(d: Direction, series: seq<FisherPoint>, threshold: real, cs: seq<Candle>, j: int)
    requires 1 <= j < |cs|
  {
    exists k | 0 <= k < |series| ::
      cs[j - 1].closeTime < series[k].closeTime <= cs[j].closeTime && TurnsOn(d, series, threshold, k)
  }

  /** This 4H bar closed in extended territory and the one before it did not; before the first the
      line stands at zero. */
  predicate TurnsOn(d: Direction, series: seq<FisherPoint>, threshold: real, k: nat)
    requires k < |series|
  {
    var before := if k == 0 then 0.0 else series[k - 1].fisher;
    Extended(d, series[k].fisher, threshold) && !Extended(d, before, threshold)
  }

  /** The bar neither trades at stop or target nor turns the Fisher line. */
  ghost predicate Uneventful(s: Signal, series: seq<FisherPoint>, threshold: real, cs: seq<Candle>, j: int)
    requires 1 <= j < |cs|
  {
    && !LosesAt(s.direction, cs[j], s.stop) && !WinsAt(s.direction, cs[j], s.target)
    && !TurnedDuring(s.direction, series, threshold, cs, j)
  }

  ghost predicate UneventfulTo(s: Signal, series: seq<FisherPoint>, threshold: real, cs: seq<Candle>,
                               entryIndex: nat, n: int)
    requires n <= |cs|
  {
    forall i | entryIndex < i < n :: Uneventful(s, series, threshold, cs, i)
  }

  /** What bar j gives as the reason, and the price that goes with it. */
  ghost predicate LeftAt(s: Signal, series: seq<FisherPoint>, threshold: real, cs: seq<Candle>, j: int,
                         reason: ExitReason, px: real)
    requires 1 <= j < |cs|
  {
    match reason
    case StopHit => LosesAt(s.direction, cs[j], s.stop) && px == s.stop
    case TargetHit =>
      !LosesAt(s.direction, cs[j], s.stop) && WinsAt(s.direction, cs[j], s.target) && px == s.target
    case FisherExhaustion =>
      && !LosesAt(s.direction, cs[j], s.stop) && !WinsAt(s.direction, cs[j], s.target)
      && TurnedDuring(s.direction, series, threshold, cs, j) && px == cs[j].close
  }

  lemma CrossingTurnsOn(d: Direction, series: seq<FisherPoint>, threshold: real, k: nat)
    requires k < |series|
    ensures Crossing(d, series, threshold, k) <==> TurnsOn(d, series, threshold, k)
  {
  }

  lemma EndsIsEventful(s: Signal, series: seq<FisherPoint>, threshold: real, cs: seq<Candle>, j: int)
    requires 1 <= j < |cs|
    ensures Ends(s, series, threshold, cs, j) <==> !Uneventful(s, series, threshold, cs, j)
    ensures CrossesWithin(s.direction, series, threshold, cs[j - 1].closeTime, cs[j].closeTime)
            <==> TurnedDuring(s.direction, series, threshold, cs, j)
  {
    hide Crossing, TurnsOn;
    forall k | 0 <= k < |series|
      ensures Crossing(s.direction, series, threshold, k) <==> TurnsOn(s.direction, series, threshold, k)
    {
      CrossingTurnsOn(s.direction, series, threshold, k);
    }
  }

  /** Until the exit nothing happened that could end the trade, and the exit bar gives its reason; a
      trade that is still open met nothing at all. */
  lemma {:induction false} OutcomeIs(s: Signal, series: seq<FisherPoint>, threshold: real, cs: seq<Candle>,
                                     entryIndex: nat, t: Trade)
    requires IsOutcome(s, series, threshold, cs, entryIndex, t)
    ensures t.Unresolved? ==>
              t.barsHeld == |cs| - 1 - entryIndex && UneventfulTo(s, series, threshold, cs, entryIndex, |cs|)
    ensures t.Resolved? ==>
              && entryIndex < t.exitIndex < |cs|
              && UneventfulTo(s, series, threshold, cs, entryIndex, t.exitIndex)
              && LeftAt(s, series, threshold, cs, t.exitIndex, t.reason, t.exitPx)
  {
    hide Ends, Uneventful, TurnedDuring, CrossesWithin;
    var n := if t.Resolved? then t.exitIndex else |cs|;
    forall i | entryIndex < i < n ensures Uneventful(s, series, threshold, cs, i) {
      EndsIsEventful(s, series, threshold, cs, i);
    }
    if t.Resolved? {
      EndsIsEventful(s, series, threshold, cs, t.exitIndex);
      ReasonIs(s, series, threshold, cs, t.exitIndex);
    }
  }

  lemma ReasonIs(s: Signal, series: seq<FisherPoint>, threshold: real, cs: seq<Candle>, j: int)
    requires 1 <= j < |cs| && Ends(s, series, threshold, cs, j)
    ensures LeftAt(s, series, threshold, cs, j, ReasonAt(s, cs[j]), PriceAt(s, cs[j]))
  {
    hide TurnedDuring, CrossesWithin;
    EndsIsEventful(s, series, threshold, cs, j);
  }

  /** The first bar that trades at the stop or at the target ends the trade there, by the stop if it
      trades at both, unless an exhaustion ended it on an earlier bar. */
  lemma {:induction false} FirstTouchEnds(s: Signal, series: seq<FisherPoint>, threshold: real, cs: seq<Candle>,
                                          entryIndex: nat, t: Trade, j: nat)
    requires IsOutcome(s, series, threshold, cs, entryIndex, t) && entryIndex < j < |cs|
    requires LosesAt(s.direction, cs[j], s.stop) || WinsAt(s.direction, cs[j], s.target)
    requires forall i | entryIndex < i < j ::
               !LosesAt(s.direction, cs[i], s.stop) && !WinsAt(s.direction, cs[i], s.target)
    ensures t.Resolved? && t.exitIndex <= j
    ensures t.exitIndex < j ==> t.reason == FisherExhaustion
    ensures t.exitIndex == j ==> t.reason == if LosesAt(s.direction, cs[j], s.stop) then StopHit else TargetHit
  {
    hide IsOutcome, TurnedDuring;
    OutcomeIs(s, series, threshold, cs, entryIndex, t);
    var n := if t.Resolved? then t.exitIndex else |cs|;
    assert j < n ==> Uneventful(s, series, threshold, cs, j);
    assert t.Resolved? && t.exitIndex < j ==>
        !LosesAt(s.direction, cs[t.exitIndex], s.stop) && !WinsAt(s.direction, cs[t.exitIndex], s.target);
  }

  /** The result in units of the risk: the move in the trade's favour, and the same less both fees. */
  lemma OutcomeEarns(s: Signal, series: seq<FisherPoint>, threshold: real, cs: seq<Candle>, entryIndex: nat, t: Trade)
    requires IsOutcome(s, series, threshold, cs, entryIndex, t) && t.Resolved?
    ensures var risk := if s.entry >= s.stop then s.entry - s.stop else s.stop - s.entry;
            var gain := if s.direction == Long then t.exitPx - s.entry else s.entry - t.exitPx;
            && risk > 0.0 && t.grossR * risk == gain
            && t.netR * risk == gain - 0.00075 * (s.entry + t.exitPx)
  {
    hide RunsUntil, Ends, ReasonAt, PriceAt;
    var risk := if s.entry >= s.stop then s.entry - s.stop else s.stop - s.entry;
    assert RiskOf(s) == risk;
    var gain := if s.direction == Long then t.exitPx - s.entry else s.entry - t.exitPx;
    assert Sign(s.direction) * (t.exitPx - s.entry) == gain;
    var fee := (s.entry + t.exitPx) * TAKER_FEE / risk;
    assert fee * risk == (s.entry + t.exitPx) * TAKER_FEE;
    assert t.grossR == gain / risk && t.netR == t.grossR - fee;
    assert t.grossR * risk == gain;
    assert (t.grossR - fee) * risk == t.grossR * risk - fee * risk;
  }
}
