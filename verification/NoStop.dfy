/** backtest.py, _simulate_no_stop_exit: positions held without a stop under five favourable-exit
    models and the 4H bias brake. The loop's running extremes and arming flag are measured
    against closed forms over the bars held. */
module NoStop {
  import opened Market
  import opened Reals
  import opened Bias4H
  import opened Signals
  import opened Outcome

  datatype ExitModel =
    | FirstProfit
    | FibTarget
    | ResistanceRejection
    | MinMoveFirstProfit(minMoveR: real)
    | TrailingOnceProfitable(armR: real, distR: real)

  datatype HoldReason = Reversion | MinMoveProfit | FibTouch | Rejection | TrailingStop | BiasFlip

  datatype BiasPoint = BiasPoint(closeTime: int, bias: Bias)

  datatype SrPoint = SrPoint(closeTime: int, result: BiasResult)

  datatype Fill = Fill(px: real, reason: HoldReason)

  datatype Hold =
    | HoldClosed(signal: Signal, entryIndex: nat, exitIndex: nat, reason: HoldReason, exitPx: real,
                 grossR: real, netR: real, maeFrac: real, maeR: Option<real>)
    | HoldOpen(signal: Signal, entryIndex: nat, barsHeld: int, maeFrac: real, maeR: Option<real>)

  // ----- excursions

  function AdverseFrac(s: Signal, c: Candle): real {
    Ratio(if s.direction == Long then c.low - s.entry else s.entry - c.high, s.entry)
  }

  function FavorFrac(s: Signal, c: Candle): real {
    Ratio(if s.direction == Long then c.high - s.entry else s.entry - c.low, s.entry)
  }

  /** Deepest adverse and largest favourable excursion on the bars after entry through j. */
  function WorstTo(s: Signal, cs: seq<Candle>, entryIndex: nat, j: nat): real
    requires j < |cs|
  {
    if j <= entryIndex then 0.0 else Min(WorstTo(s, cs, entryIndex, j - 1), AdverseFrac(s, cs[j]))
  }

  function BestTo(s: Signal, cs: seq<Candle>, entryIndex: nat, j: nat): real
    requires j < |cs|
  {
    if j <= entryIndex then 0.0 else Max(BestTo(s, cs, entryIndex, j - 1), FavorFrac(s, cs[j]))
  }

  function BestPriceTo(s: Signal, cs: seq<Candle>, entryIndex: nat, j: nat): real
    requires j < |cs|
  {
    if j <= entryIndex then s.entry
    else if s.direction == Long then Max(BestPriceTo(s, cs, entryIndex, j - 1), cs[j].high)
    else Min(BestPriceTo(s, cs, entryIndex, j - 1), cs[j].low)
  }

  /** One R as a fraction of entry. */
  function RFrac(s: Signal): real {
    Ratio(RiskOf(s), s.entry)
  }

  /** Some bar after entry, up to j, carried the trade moveR in favour. */
  predicate ArmedBy(s: Signal, cs: seq<Candle>, entryIndex: nat, moveR: real, j: nat)
    requires j < |cs|
  {
    entryIndex < j && RFrac(s) != 0.0 && BestTo(s, cs, entryIndex, j) >= moveR * RFrac(s)
  }

  // ----- what a bar does

  /** Signed distance from entry. */
  function Gain(s: Signal, px: real): real {
    Sign(s.direction) * (px - s.entry)
  }

  predicate Profitable(s: Signal, c: Candle) {
    Ratio(Gain(s, c.close), s.entry) - 2.0 * TAKER_FEE > 0.0
  }

  function BiasTimes(bias: seq<BiasPoint>): seq<int> {
    seq(|bias|, i requires 0 <= i < |bias| => bias[i].closeTime)
  }

  function SrTimes(sr: seq<SrPoint>): seq<int> {
    seq(|sr|, i requires 0 <= i < |sr| => sr[i].closeTime)
  }

  function OpenedBias(d: Direction): Bias {
    if d == Long then Bullish else Bearish
  }

  /** The 4H bias last closed by this bar is no longer the trade's; NEUTRAL counts. */
  predicate Brake(s: Signal, bias: seq<BiasPoint>, c: Candle) {
    var b := BisectRight(BiasTimes(bias), c.closeTime);
    b > 0 && bias[b - 1].bias != OpenedBias(s.direction)
  }

  /** The bar trades into the nearest opposing level and closes back. */
  predicate Rejects(s: Signal, sr: seq<SrPoint>, prevClose: real, c: Candle) {
    var k := BisectRight(SrTimes(sr), c.closeTime);
    k > 0 &&
    if s.direction == Long then
      var level := NearestResistance(sr[k - 1].result, prevClose);
      level.Some? && c.high >= level.value && c.close < level.value
    else
      var level := NearestSupport(sr[k - 1].result, prevClose);
      level.Some? && c.low <= level.value && c.close > level.value
  }

  function TrailPrice(s: Signal, best: real, distR: real): real {
    if s.direction == Long then best - distR * RiskOf(s) else best + distR * RiskOf(s)
  }

  predicate Reaches(s: Signal, c: Candle, px: real) {
    if s.direction == Long then c.low <= px else c.high >= px
  }

  /** The favourable exit bar j offers under the model, as a closed form over the bars so far. */
  function Favourable(m: ExitModel, s: Signal, sr: seq<SrPoint>, cs: seq<Candle>, entryIndex: nat, j: nat): Option<Fill>
    requires 1 <= j < |cs|
  {
    var c := cs[j];
    match m
    case FirstProfit => if Profitable(s, c) then Some(Fill(c.close, Reversion)) else None
    case MinMoveFirstProfit(moveR) =>
      if ArmedBy(s, cs, entryIndex, moveR, j) && Profitable(s, c) then Some(Fill(c.close, MinMoveProfit)) else None
    case FibTarget => if TouchesTarget(s, c) then Some(Fill(s.target, FibTouch)) else None
    case ResistanceRejection =>
      if Rejects(s, sr, cs[j - 1].close, c) then Some(Fill(c.close, Rejection)) else None
    case TrailingOnceProfitable(armR, distR) =>
      var trail := TrailPrice(s, BestPriceTo(s, cs, entryIndex, j - 1), distR);
      if ArmedBy(s, cs, entryIndex, armR, j - 1) && Reaches(s, c, trail) then Some(Fill(trail, TrailingStop)) else None
  }

  function MaeR(s: Signal, worst: real): Option<real> {
    if RiskOf(s) != 0.0 then Some(worst * s.entry / RiskOf(s)) else None
  }

  function CloseHold(s: Signal, entryIndex: nat, j: nat, f: Fill, worst: real): Hold {
    var gross := Ratio(Gain(s, f.px), RiskOf(s));
    HoldClosed(s, entryIndex, j, f.reason, f.px, gross,
               gross - Ratio((s.entry + f.px) * TAKER_FEE, RiskOf(s)), worst, MaeR(s, worst))
  }

  /** How bar j ends the hold; a favourable exit takes precedence over the brake. */
  function ExitFill(m: ExitModel, s: Signal, bias: seq<BiasPoint>, sr: seq<SrPoint>, cs: seq<Candle>,
                    entryIndex: nat, j: nat): Option<Fill>
    requires 1 <= j < |cs|
  {
    var fav := Favourable(m, s, sr, cs, entryIndex, j);
    if fav.Some? then fav
    else if Brake(s, bias, cs[j]) then Some(Fill(cs[j].close, BiasFlip)) else None
  }

  ghost predicate HoldsUntil(m: ExitModel, s: Signal, bias: seq<BiasPoint>, sr: seq<SrPoint>, cs: seq<Candle>,
                             entryIndex: nat, j: int)
    requires j <= |cs|
  {
    forall i | entryIndex < i < j :: ExitFill(m, s, bias, sr, cs, entryIndex, i).None?
  }

  /** The declarative rule: closed at the first bar with an exit, by that exit, with the deepest
      adverse excursion of the bars held; open if there is none. */
  ghost predicate IsHold(m: ExitModel, s: Signal, bias: seq<BiasPoint>, sr: seq<SrPoint>, cs: seq<Candle>,
                         entryIndex: nat, h: Hold)
    requires entryIndex < |cs|
  {
    match h
    case HoldClosed(_, _, j, _, _, _, _, _, _) =>
      && entryIndex < j < |cs|
      && HoldsUntil(m, s, bias, sr, cs, entryIndex, j)
      && ExitFill(m, s, bias, sr, cs, entryIndex, j).Some?
      && h == CloseHold(s, entryIndex, j, ExitFill(m, s, bias, sr, cs, entryIndex, j).value,
                        WorstTo(s, cs, entryIndex, j))
    case HoldOpen(_, _, _, _, _) =>
      && HoldsUntil(m, s, bias, sr, cs, entryIndex, |cs|)
      && var worst := WorstTo(s, cs, entryIndex, |cs| - 1);
         h == HoldOpen(s, entryIndex, |cs| - 1 - entryIndex, worst, MaeR(s, worst))
  }

  // ----- the loop

  /** The move that sets the loop's flag: the minimum-move model sets it before the bar's exit
      test, the trailing model after it. */
  function Threshold(m: ExitModel): real {
    match m
    case MinMoveFirstProfit(moveR) => moveR
    case TrailingOnceProfitable(armR, _) => armR
    case _ => 0.0
  }

  predicate UsesFlag(m: ExitModel) {
    m.MinMoveFirstProfit? || m.TrailingOnceProfitable?
  }

  lemma ArmedStays(s: Signal, cs: seq<Candle>, entryIndex: nat, moveR: real, j: nat)
    requires 1 <= j < |cs| && ArmedBy(s, cs, entryIndex, moveR, j - 1)
    ensures ArmedBy(s, cs, entryIndex, moveR, j)
  {
    hide FavorFrac, RFrac;
  }

  lemma NothingHeld(s: Signal, cs: seq<Candle>, entryIndex: nat)
    requires entryIndex < |cs|
    ensures WorstTo(s, cs, entryIndex, entryIndex) == 0.0
    ensures BestTo(s, cs, entryIndex, entryIndex) == 0.0
    ensures BestPriceTo(s, cs, entryIndex, entryIndex) == s.entry
  {
  }

  lemma HoldsAtStart(m: ExitModel, s: Signal, bias: seq<BiasPoint>, sr: seq<SrPoint>, cs: seq<Candle>, entryIndex: nat)
    requires entryIndex < |cs|
    ensures HoldsUntil(m, s, bias, sr, cs, entryIndex, entryIndex + 1)
  {
  }

  lemma HoldsOn(m: ExitModel, s: Signal, bias: seq<BiasPoint>, sr: seq<SrPoint>, cs: seq<Candle>,
                entryIndex: nat, j: nat)
    requires entryIndex < j < |cs| && HoldsUntil(m, s, bias, sr, cs, entryIndex, j)
    requires ExitFill(m, s, bias, sr, cs, entryIndex, j).None?
    ensures HoldsUntil(m, s, bias, sr, cs, entryIndex, j + 1)
  {
  }

  /** The model-specific part of the loop body. */
  method FavourableNow(m: ExitModel, s: Signal, sr: seq<SrPoint>, cs: seq<Candle>, entryIndex: nat, j: nat,
                       bestFav: real, bestPrice: real, wasArmed: bool) returns (fill: Option<Fill>, armed: bool)
    requires entryIndex < j < |cs|
    requires bestFav == BestTo(s, cs, entryIndex, j) && bestPrice == BestPriceTo(s, cs, entryIndex, j - 1)
    requires wasArmed == (UsesFlag(m) && ArmedBy(s, cs, entryIndex, Threshold(m), j - 1))
    ensures fill == Favourable(m, s, sr, cs, entryIndex, j)
    ensures armed == (UsesFlag(m) && ArmedBy(s, cs, entryIndex, Threshold(m), j))
  {
    hide Profitable, Rejects, TouchesTarget, Reaches, TrailPrice, FavorFrac, RFrac, BestTo, BestPriceTo;
    var c := cs[j];
    fill, armed := None, wasArmed;
    if armed {
      ArmedStays(s, cs, entryIndex, Threshold(m), j);
    }
    if m.FirstProfit? || m.MinMoveFirstProfit? {
      if m.MinMoveFirstProfit? && !armed && RFrac(s) != 0.0 && bestFav >= m.minMoveR * RFrac(s) {
        armed := true;
      }
      if (m.FirstProfit? || armed) && Profitable(s, c) {
        fill := Some(Fill(c.close, if m.FirstProfit? then Reversion else MinMoveProfit));
      }
    } else if m.FibTarget? {
      if TouchesTarget(s, c) {
        fill := Some(Fill(s.target, FibTouch));
      }
    } else if m.ResistanceRejection? {
      if Rejects(s, sr, cs[j - 1].close, c) {
        fill := Some(Fill(c.close, Rejection));
      }
    } else if armed {
      var trail := TrailPrice(s, bestPrice, m.distR);
      if Reaches(s, c, trail) {
        fill := Some(Fill(trail, TrailingStop));
      }
    } else if RFrac(s) != 0.0 && bestFav >= m.armR * RFrac(s) {
      armed := true;
    }
  }

  method SimulateNoStop(cs: seq<Candle>, entryIndex: nat, s: Signal, bias: Option<seq<BiasPoint>>,
                        m: ExitModel, sr: Option<seq<SrPoint>>) returns (r: Result<Hold>)
    requires entryIndex < |cs|
    ensures var levels := if sr.Some? then sr.value else [];
            r.Ok? ==> bias.Some? && IsHold(m, s, bias.value, levels, cs, entryIndex, r.value)
    ensures r.Err? <==> bias.None? || (m.ResistanceRejection? && sr.None?)
                        || (s.entry == 0.0 && entryIndex + 1 < |cs|)
  {
    if bias.None? {
      return Err("no-stop exit requires bias4h_series");
    }
    if m.ResistanceRejection? && sr.None? {
      return Err("resistance_rejection requires sr4h_series");
    }
    if s.entry == 0.0 && entryIndex + 1 < |cs| {
      return Err("division by zero");
    }
    hide Favourable, ArmedBy, Brake, CloseHold, AdverseFrac, FavorFrac, MaeR, HoldsUntil, UsesFlag, Threshold, Min, Max;
    var levels := if sr.Some? then sr.value else [];
    HoldsAtStart(m, s, bias.value, levels, cs, entryIndex);
    NothingHeld(s, cs, entryIndex);
    var worst, bestFav, bestPrice, armed := 0.0, 0.0, s.entry, false;
    var j := entryIndex + 1;
    while j < |cs|
      invariant entryIndex < j <= |cs|
      invariant worst == WorstTo(s, cs, entryIndex, j - 1)
      invariant bestFav == BestTo(s, cs, entryIndex, j - 1)
      invariant bestPrice == BestPriceTo(s, cs, entryIndex, j - 1)
      invariant armed == (UsesFlag(m) && ArmedBy(s, cs, entryIndex, Threshold(m), j - 1))
      invariant HoldsUntil(m, s, bias.value, levels, cs, entryIndex, j)
    {
      var c := cs[j];
      worst := Min(worst, AdverseFrac(s, c));
      bestFav := Max(bestFav, FavorFrac(s, c));
      var fill;
      fill, armed := FavourableNow(m, s, levels, cs, entryIndex, j, bestFav, bestPrice, armed);
      if fill.None? && Brake(s, bias.value, c) {
        fill := Some(Fill(c.close, BiasFlip));
      }
      if fill.Some? {
        return Ok(CloseHold(s, entryIndex, j, fill.value, worst));
      }
      bestPrice := if s.direction == Long then Max(bestPrice, c.high) else Min(bestPrice, c.low);
      HoldsOn(m, s, bias.value, levels, cs, entryIndex, j);
      j := j + 1;
    }
    r := Ok(HoldOpen(s, entryIndex, |cs| - 1 - entryIndex, worst, MaeR(s, worst)));
  }

  // ----- what every hold satisfies

  lemma HoldUnique(m: ExitModel, s: Signal, bias: seq<BiasPoint>, sr: seq<SrPoint>, cs: seq<Candle>, entryIndex: nat,
                   h: Hold, g: Hold)
    requires entryIndex < |cs|
    requires IsHold(m, s, bias, sr, cs, entryIndex, h) && IsHold(m, s, bias, sr, cs, entryIndex, g)
    ensures h == g
  {
    hide ExitFill, WorstTo;
    if h.HoldClosed? && g.HoldClosed? {
      assert h.exitIndex == g.exitIndex;
    }
  }

  /** Under every model the trade closes no later than the first bar at which the 4H bias is not
      the opening bias, and a bias_flip exit is that very bar. */
  lemma BrakeBounds(m: ExitModel, s: Signal, bias: seq<BiasPoint>, sr: seq<SrPoint>, cs: seq<Candle>,
                    entryIndex: nat, h: Hold, b: nat)
    requires entryIndex < b < |cs| && IsHold(m, s, bias, sr, cs, entryIndex, h)
    requires Brake(s, bias, cs[b]) && forall i | entryIndex < i < b :: !Brake(s, bias, cs[i])
    ensures h.HoldClosed? && h.exitIndex <= b
    ensures h.reason == BiasFlip ==> h.exitIndex == b
    ensures h.reason != BiasFlip ==> Favourable(m, s, sr, cs, entryIndex, h.exitIndex).Some?
  {
    hide Brake, WorstTo, Profitable, Rejects, TouchesTarget, Reaches, TrailPrice, ArmedBy;
    assert ExitFill(m, s, bias, sr, cs, entryIndex, b).Some?;
  }

  /** The reported excursion is at most zero, at most every held bar's adverse excursion, and one
      of these: it is their minimum. */
  lemma {:induction false} WorstIs(s: Signal, cs: seq<Candle>, entryIndex: nat, j: nat)
    requires j < |cs|
    ensures WorstTo(s, cs, entryIndex, j) <= 0.0
    ensures forall i | entryIndex < i <= j :: WorstTo(s, cs, entryIndex, j) <= AdverseFrac(s, cs[i])
    ensures WorstTo(s, cs, entryIndex, j) == 0.0
            || exists i | entryIndex < i <= j :: WorstTo(s, cs, entryIndex, j) == AdverseFrac(s, cs[i])
  {
    hide AdverseFrac;
    if j > entryIndex {
      WorstIs(s, cs, entryIndex, j - 1);
    }
  }

  lemma ExcursionIsMinimum(m: ExitModel, s: Signal, bias: seq<BiasPoint>, sr: seq<SrPoint>, cs: seq<Candle>,
                           entryIndex: nat, h: Hold)
    requires entryIndex < |cs| && IsHold(m, s, bias, sr, cs, entryIndex, h)
    ensures var last := if h.HoldClosed? then h.exitIndex else |cs| - 1;
            && h.maeFrac <= 0.0
            && (forall i | entryIndex < i <= last :: h.maeFrac <= AdverseFrac(s, cs[i]))
            && (h.maeFrac == 0.0 || exists i | entryIndex < i <= last :: h.maeFrac == AdverseFrac(s, cs[i]))
  {
    hide AdverseFrac, ExitFill, HoldsUntil;
    WorstIs(s, cs, entryIndex, if h.HoldClosed? then h.exitIndex else |cs| - 1);
  }

  lemma FavorScaled(s: Signal, c: Candle)
    requires s.entry > 0.0
    ensures FavorFrac(s, c) * s.entry == if s.direction == Long then c.high - s.entry else s.entry - c.low
  {
  }

  function Further(s: Signal, best: real, c: Candle): real {
    if s.direction == Long then Max(best, c.high) else Min(best, c.low)
  }

  lemma GainOfFurther(s: Signal, best: real, c: Candle)
    requires s.entry > 0.0
    ensures Gain(s, Further(s, best, c))
            == Max(Gain(s, best), Times(FavorFrac(s, c), s.entry))
  {
    hide FavorFrac;
    FavorScaled(s, c);
  }

  lemma MaxTimes(x: real, y: real, w: real)
    requires w > 0.0
    ensures Times(Max(x, y), w) == Max(Times(x, w), Times(y, w))
  {
    MaxScaled(x, y, w);
  }

  /** The best price is the entry moved by the best favourable fraction. */
  lemma {:induction false} BestPriceIs(s: Signal, cs: seq<Candle>, entryIndex: nat, j: nat)
    requires j < |cs| && s.entry > 0.0
    ensures Gain(s, BestPriceTo(s, cs, entryIndex, j)) == Times(BestTo(s, cs, entryIndex, j), s.entry)
  {
    if j > entryIndex {
      hide FavorFrac, Gain, Times, Max, Min;
      BestPriceIs(s, cs, entryIndex, j - 1);
      var best := BestPriceTo(s, cs, entryIndex, j - 1);
      GainOfFurther(s, best, cs[j]);
      MaxTimes(BestTo(s, cs, entryIndex, j - 1), FavorFrac(s, cs[j]), s.entry);
    }
  }

  lemma TrailingFill(s: Signal, bias: seq<BiasPoint>, sr: seq<SrPoint>, cs: seq<Candle>,
                     entryIndex: nat, h: Hold, armR: real, distR: real)
    requires entryIndex < |cs| && IsHold(TrailingOnceProfitable(armR, distR), s, bias, sr, cs, entryIndex, h)
    requires h.HoldClosed? && h.reason == TrailingStop
    ensures 1 <= h.exitIndex < |cs| && ArmedBy(s, cs, entryIndex, armR, h.exitIndex - 1)
    ensures h.exitPx == TrailPrice(s, BestPriceTo(s, cs, entryIndex, h.exitIndex - 1), distR)
    ensures h.grossR == Ratio(Gain(s, h.exitPx), RiskOf(s))
  {
    hide HoldsUntil, Brake, Reaches, WorstTo, BestTo, BestPriceTo, ArmedBy, TrailPrice, Ratio, MaeR, Gain;
  }

  /** A trailing exit keeps at least the arming move less the trailing distance. */
  lemma TrailingFloor(s: Signal, bias: seq<BiasPoint>, sr: seq<SrPoint>, cs: seq<Candle>,
                      entryIndex: nat, h: Hold, armR: real, distR: real)
    requires entryIndex < |cs| && s.entry > 0.0 && RiskOf(s) > 0.0
    requires IsHold(TrailingOnceProfitable(armR, distR), s, bias, sr, cs, entryIndex, h)
    requires h.HoldClosed? && h.reason == TrailingStop
    ensures h.grossR >= armR - distR
  {
    hide IsHold, BestTo, BestPriceTo, Ratio, RiskOf, Gain, Times, TrailPrice;
    TrailingFill(s, bias, sr, cs, entryIndex, h, armR, distR);
    var best := BestPriceTo(s, cs, entryIndex, h.exitIndex - 1);
    BestPriceIs(s, cs, entryIndex, h.exitIndex - 1);
    GainOfTrail(s, best, distR);
    KeptGain(BestTo(s, cs, entryIndex, h.exitIndex - 1), armR, distR, s.entry, RiskOf(s), Gain(s, h.exitPx));
  }

  lemma KeptGain(fav: real, armR: real, distR: real, entry: real, risk: real, gain: real)
    requires entry > 0.0 && risk > 0.0 && fav >= armR * Ratio(risk, entry)
    requires gain == Times(fav, entry) - Times(distR, risk)
    ensures Ratio(gain, risk) >= armR - distR
  {
    hide Ratio;
    RatioTimes(risk, entry);
    RatioTimes(gain, risk);
    DivideOrder(armR - distR, Ratio(gain, risk), risk);
  }

  lemma GainOfTrail(s: Signal, best: real, distR: real)
    ensures Gain(s, TrailPrice(s, best, distR)) == Gain(s, best) - Times(distR, RiskOf(s))
  {
    hide RiskOf;
  }

  // ----- the first-profit trigger and the net result

  /** The close beyond which the trigger fires: it charges both sides on the entry. */
  function TriggerPrice(s: Signal): real {
    if s.direction == Long then s.entry * (1.0 + 2.0 * TAKER_FEE) else s.entry * (1.0 - 2.0 * TAKER_FEE)
  }

  /** The close beyond which the result is positive: it charges one side on the entry, one on the
      exit. */
  function BreakEven(s: Signal): real {
    if s.direction == Long then s.entry * (1.0 + TAKER_FEE) / (1.0 - TAKER_FEE)
    else s.entry * (1.0 - TAKER_FEE) / (1.0 + TAKER_FEE)
  }

  /** Closes of a long that fire the trigger and do not pay. */
  predicate InFeeBand(s: Signal, px: real) {
    s.direction == Long && TriggerPrice(s) < px <= BreakEven(s)
  }

  lemma ProfitableIsBeyond(s: Signal, c: Candle)
    requires s.entry > 0.0
    ensures Profitable(s, c) <==> Beyond(s.direction, c.close, TriggerPrice(s))
  {
    hide Ratio;
    RatioTimes(Gain(s, c.close), s.entry);
    TriggerMove(Ratio(Gain(s, c.close), s.entry), Gain(s, c.close), s.entry);
  }

  lemma TriggerMove(r: real, gain: real, entry: real)
    requires entry > 0.0 && r * entry == gain
    ensures r - 2.0 * TAKER_FEE > 0.0 <==> gain > 2.0 * TAKER_FEE * entry
  {
    if r - 2.0 * TAKER_FEE > 0.0 {
      ProductPositive(r - 2.0 * TAKER_FEE, entry);
    } else if r - 2.0 * TAKER_FEE < 0.0 {
      ProductPositive(2.0 * TAKER_FEE - r, entry);
    }
  }

  /** The result of an exit is positive exactly beyond the break-even price, */
  lemma NetBeyondBreakEven(s: Signal, px: real)
    requires RiskOf(s) > 0.0
    ensures Ratio(Gain(s, px), RiskOf(s)) - Ratio((s.entry + px) * TAKER_FEE, RiskOf(s)) > 0.0
            <==> Beyond(s.direction, px, BreakEven(s))
  {
    hide Ratio, RiskOf;
    RatioLess((s.entry + px) * TAKER_FEE, Gain(s, px), RiskOf(s));
  }

  /** and every close of a short that fires the trigger lies beyond it. */
  lemma ShortAlwaysPays(s: Signal, px: real)
    requires s.entry > 0.0 && s.direction == Short && Beyond(Short, px, TriggerPrice(s))
    ensures Beyond(Short, px, BreakEven(s))
  {
  }

  predicate ProfitModel(m: ExitModel) {
    m.FirstProfit? || m.MinMoveFirstProfit?
  }

  /** The minimum-move model waits until the trade has been far enough in favour. */
  predicate Ready(m: ExitModel, s: Signal, cs: seq<Candle>, entryIndex: nat, j: nat)
    requires j < |cs| && ProfitModel(m)
  {
    m.FirstProfit? || ArmedBy(s, cs, entryIndex, m.minMoveR, j)
  }

  /** The bar is ready and closes beyond the trigger price. */
  predicate Fires(m: ExitModel, s: Signal, cs: seq<Candle>, entryIndex: nat, j: nat)
    requires j < |cs| && ProfitModel(m)
  {
    Ready(m, s, cs, entryIndex, j) && Beyond(s.direction, cs[j].close, TriggerPrice(s))
  }

  lemma FiresIsFavourable(m: ExitModel, s: Signal, sr: seq<SrPoint>, cs: seq<Candle>, entryIndex: nat, j: nat)
    requires 1 <= j < |cs| && ProfitModel(m) && s.entry > 0.0
    ensures Favourable(m, s, sr, cs, entryIndex, j)
            == if Fires(m, s, cs, entryIndex, j)
               then Some(Fill(cs[j].close, if m.FirstProfit? then Reversion else MinMoveProfit)) else None
  {
    hide Profitable, TriggerPrice, ArmedBy;
    ProfitableIsBeyond(s, cs[j]);
  }

  /** Under both profit models the trade leaves at the first firing bar not preceded by the brake,
      and the result is positive if and only if that close lies outside the fee band: for a long
      above entry*(1+f)/(1-f), for a short always. */
  lemma FirstProfitNet(m: ExitModel, s: Signal, bias: seq<BiasPoint>, sr: seq<SrPoint>, cs: seq<Candle>,
                       entryIndex: nat, h: Hold, j: nat)
    requires ProfitModel(m) && s.entry > 0.0 && RiskOf(s) > 0.0
    requires entryIndex < j < |cs| && IsHold(m, s, bias, sr, cs, entryIndex, h)
    requires Fires(m, s, cs, entryIndex, j)
    requires forall i | entryIndex < i < j :: !Fires(m, s, cs, entryIndex, i) && !Brake(s, bias, cs[i])
    ensures h.HoldClosed? && h.exitIndex == j && h.exitPx == cs[j].close
    ensures h.reason == if m.FirstProfit? then Reversion else MinMoveProfit
    ensures h.netR > 0.0 <==> !InFeeBand(s, cs[j].close)
  {
    hide Fires, Favourable, Brake, WorstTo, RiskOf, TriggerPrice, BreakEven, Gain, MaeR, Ratio;
    forall i | entryIndex < i <= j ensures ExitFill(m, s, bias, sr, cs, entryIndex, i).Some? <==> i == j {
      FiresIsFavourable(m, s, sr, cs, entryIndex, i);
    }
    FiresIsFavourable(m, s, sr, cs, entryIndex, j);
    ExitsAt(m, s, bias, sr, cs, entryIndex, h, j);
    NetOfFire(m, s, cs, entryIndex, j);
  }

  lemma ExitsAt(m: ExitModel, s: Signal, bias: seq<BiasPoint>, sr: seq<SrPoint>, cs: seq<Candle>,
                entryIndex: nat, h: Hold, j: nat)
    requires entryIndex < j < |cs| && IsHold(m, s, bias, sr, cs, entryIndex, h)
    requires forall i | entryIndex < i <= j :: ExitFill(m, s, bias, sr, cs, entryIndex, i).Some? <==> i == j
    ensures h == CloseHold(s, entryIndex, j, ExitFill(m, s, bias, sr, cs, entryIndex, j).value,
                           WorstTo(s, cs, entryIndex, j))
  {
    hide ExitFill, WorstTo, CloseHold;
  }

  lemma NetOfFire(m: ExitModel, s: Signal, cs: seq<Candle>, entryIndex: nat, j: nat)
    requires ProfitModel(m) && s.entry > 0.0 && RiskOf(s) > 0.0 && j < |cs| && Fires(m, s, cs, entryIndex, j)
    ensures Ratio(Gain(s, cs[j].close), RiskOf(s)) - Ratio((s.entry + cs[j].close) * TAKER_FEE, RiskOf(s)) > 0.0
            <==> !InFeeBand(s, cs[j].close)
  {
    hide Ready, RiskOf, TriggerPrice, BreakEven, Gain, Ratio;
    NetBeyondBreakEven(s, cs[j].close);
    if s.direction == Short {
      ShortAlwaysPays(s, cs[j].close);
    }
  }

  /** A two-bar series on which both profit models leave a long with a loss. */
  lemma FirstProfitCanLose(m: ExitModel) returns (s: Signal, cs: seq<Candle>, h: Hold)
    requires m == FirstProfit || m == MinMoveFirstProfit(0.1)
    ensures s.direction == Long && s.entry > 0.0 && RiskOf(s) > 0.0
    ensures |cs| == 2 && cs[0].close == s.entry && IsHold(m, s, [BiasPoint(0, Bullish)], [], cs, 0, h)
    ensures h.HoldClosed? && h.reason == (if m.FirstProfit? then Reversion else MinMoveProfit) && h.netR < 0.0
  {
    s := Signal(Long, 100000.0, 99000.0, 103000.0, 3.0);
    cs := [Candle(0, 1, 100000.0, 100000.0, 100000.0, 100000.0, 1.0),
           Candle(1, 2, 100000.0, 100200.0, 100000.0, 100150.1, 1.0)];
    var fill := Fill(100150.1, if m.FirstProfit? then Reversion else MinMoveProfit);
    assert FavorFrac(s, cs[1]) == 0.002;
    assert BestTo(s, cs, 0, 0) == 0.0;
    assert ExitFill(m, s, [BiasPoint(0, Bullish)], [], cs, 0, 1) == Some(fill);
    h := CloseHold(s, 0, 1, fill, WorstTo(s, cs, 0, 1));
  }
}
