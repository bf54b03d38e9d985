/** backtest.py, run_fisher_cycle_backtest: what the reported legs say of the bars, written out over
    the readings of the bars. */
module CycleLegs {
  import opened Market
  import opened Bias4H
  import opened Trigger1H
  import opened Atr
  import opened FisherCycle
  import opened CycleMachine
  import opened CycleGrammar

  /** A pullback against the daily bias: where a machine that is flat opens a leg that way. */
  predicate Pullback(r: Reading, threshold: real, d: Direction) {
    if d == Long then r.bias == Bullish && r.fisher <= -threshold else r.bias == Bearish && r.fisher >= threshold
  }

  /** The Fisher value has gone to the far end in the leg's favour. */
  predicate Extreme(r: Reading, threshold: real, d: Direction) {
    if d == Long then r.fisher >= threshold else r.fisher <= -threshold
  }

  /** The bar trades at the stop or beyond. */
  predicate AtStop(r: Reading, leg: Leg) {
    if leg.direction == Long then r.low <= leg.stop else r.high >= leg.stop
  }

  predicate Flipped(legs: seq<LegResult>, k: nat)
    requires k < |legs|
  {
    k > 0 && legs[k - 1].Closed? && legs[k - 1].reason == ExhaustionFlip
  }

  /** Entered past the warm-up at the bar's close, with the stop the multiple of ATR away; on a
      pullback, unless the leg before was flipped, and then the other way. */
  predicate Entered(rules: Rules, rs: seq<Reading>, legs: seq<LegResult>, k: nat)
    requires k < |legs|
  {
    var leg := legs[k].leg;
    && 40 <= leg.entryIndex < |rs|
    && var r := rs[leg.entryIndex];
       && r.atr > 0.0 && leg.entry == r.close
       && leg.stop == (if leg.direction == Long then r.close - rules.multiplier * r.atr
                       else r.close + rules.multiplier * r.atr)
       && if Flipped(legs, k) then
            legs[k - 1].exitIndex == leg.entryIndex && legs[k - 1].leg.direction != leg.direction
          else Pullback(r, rules.threshold, leg.direction)
  }

  /** Nothing happens to the leg on the bars after its entry and before bar n. */
  ghost predicate Undisturbed(rules: Rules, rs: seq<Reading>, leg: Leg, n: nat)
    requires leg.entryIndex < n <= |rs|
  {
    forall j | leg.entryIndex < j < n ::
      !AtStop(rs[j], leg) && rs[j].bias == rs[leg.entryIndex].bias && !Extreme(rs[j], rules.threshold, leg.direction)
  }

  /** Left at the first bar that stops it, breaks the bias or is extreme, in this order, at the stop
      or the close. */
  ghost predicate Left(rules: Rules, rs: seq<Reading>, l: LegResult) {
    && l.leg.entryIndex < |rs|
    && match l
       case Unresolved(leg, _) => Undisturbed(rules, rs, leg, |rs|)
       case Closed(leg, _, x, price, reason, _, _) =>
         && leg.entryIndex < x < |rs| && Undisturbed(rules, rs, leg, x)
         && var r := rs[x];
            match reason
            case StopHit => AtStop(r, leg) && price == leg.stop
            case BiasFlip => !AtStop(r, leg) && r.bias != rs[leg.entryIndex].bias && price == r.close
            case ExhaustionFlip =>
              && !AtStop(r, leg) && r.bias == rs[leg.entryIndex].bias
              && Extreme(r, rules.threshold, leg.direction) && price == r.close
  }

  /** Every reported leg, bar by bar. */
  lemma {:induction false} EveryLeg(ln: real -> real, rules: Rules, daily: seq<Candle>, trig: seq<Candle>, k: nat)
    requires k < |Report(RunTo(rules, Readings(ln, daily, trig), |trig|))|
    ensures var rs := Readings(ln, daily, trig);
            var legs := Report(RunTo(rules, rs, |trig|));
            Entered(rules, rs, legs, k) && Left(rules, rs, legs[k])
  {
    hide RunTo, ReadingAt, Report, Grammar;
    var rs := Readings(ln, daily, trig);
    var legs := Report(RunTo(rules, rs, |trig|));
    CycleRunGrammar(ln, rules, daily, trig, legs);
    LegIsEntered(rules, rs, legs, k);
    LegIsLeft(rules, rs, legs, k);
  }

  lemma {:induction false} LegIsEntered(rules: Rules, rs: seq<Reading>, legs: seq<LegResult>, k: nat)
    requires Grammar(rules, rs, legs) && k < |legs|
    ensures Entered(rules, rs, legs, k)
  {
    assert LegOk(rules, rs, legs, k);
    if k > 0 {
      assert LegOk(rules, rs, legs, k - 1);
      LegIsEntered(rules, rs, legs, k - 1);
    }
    hide Grammar, Waits, Survives, Ends, HeldUntil;
  }

  lemma LegIsLeft(rules: Rules, rs: seq<Reading>, legs: seq<LegResult>, k: nat)
    requires Grammar(rules, rs, legs) && k < |legs|
    ensures Left(rules, rs, legs[k])
  {
    assert LegOk(rules, rs, legs, k);
    hide Grammar, Link, NewLeg, CloseLeg;
    var l := legs[k];
    var n := if l.Closed? then l.exitIndex else |rs|;
    forall j | l.leg.entryIndex < j < n
      ensures !AtStop(rs[j], l.leg) && rs[j].bias == rs[l.leg.entryIndex].bias
              && !Extreme(rs[j], rules.threshold, l.leg.direction)
    {
      assert Quiet(rules, rs, l.leg, j);
    }
  }

  // ----- what a leg earned

  /** What a leg earned whose risk is that multiple of that ATR: the move in its favour in units of the
      risk, and the same less both fees; nothing without a risk. */
  predicate Earned(l: LegResult, multiplier: real, atr: real)
    requires l.Closed?
  {
    var move := multiplier * atr;
    var risk := if move >= 0.0 then move else -move;
    var gain := if l.leg.direction == Long then l.exitPrice - l.leg.entry else l.leg.entry - l.exitPrice;
    if risk == 0.0 then l.grossR == 0.0 && l.netR == 0.0
    else l.grossR * risk == gain && l.netR * risk == gain - 0.00075 * (l.leg.entry + l.exitPrice)
  }

  /** The ATR is that of the entry bar. */
  lemma LegResultIs(ln: real -> real, rules: Rules, daily: seq<Candle>, trig: seq<Candle>, k: nat)
    requires k < |Report(RunTo(rules, Readings(ln, daily, trig), |trig|))|
    ensures var rs := Readings(ln, daily, trig);
            var l := Report(RunTo(rules, rs, |trig|))[k];
            l.Closed? ==>
              l.leg.entryIndex < |rs| && Earned(l, rules.multiplier, rs[l.leg.entryIndex].atr)
  {
    hide RunTo, ReadingAt, Report, Grammar, Earned;
    var rs := Readings(ln, daily, trig);
    var legs := Report(RunTo(rules, rs, |trig|));
    CycleRunGrammar(ln, rules, daily, trig, legs);
    LegIsEntered(rules, rs, legs, k);
    if legs[k].Closed? {
      ClosedAsBooked(rules, rs, legs, k);
      Booked(legs[k], rules.multiplier, rs[legs[k].leg.entryIndex].atr);
    }
  }

  lemma ClosedAsBooked(rules: Rules, rs: seq<Reading>, legs: seq<LegResult>, k: nat)
    requires Grammar(rules, rs, legs) && k < |legs| && legs[k].Closed?
    ensures var l := legs[k]; l == CloseLeg(l.leg, l.cycleId, l.exitIndex, l.exitPrice, l.reason)
  {
    assert LegOk(rules, rs, legs, k);
    hide Grammar, Link, HeldUntil, Opens, CloseLeg;
  }

  lemma Booked(l: LegResult, multiplier: real, atr: real)
    requires l.Closed? && l == CloseLeg(l.leg, l.cycleId, l.exitIndex, l.exitPrice, l.reason)
    requires l.leg.stop == l.leg.entry - multiplier * atr || l.leg.stop == l.leg.entry + multiplier * atr
    ensures Earned(l, multiplier, atr)
  {
    var move := multiplier * atr;
    var risk := if move >= 0.0 then move else -move;
    assert Risk(l.leg) == risk;
    if risk != 0.0 {
      var gain := if l.leg.direction == Long then l.exitPrice - l.leg.entry else l.leg.entry - l.exitPrice;
      var gross, fee := gain / risk, (l.leg.entry + l.exitPrice) * TAKER_FEE / risk;
      assert gross * risk == gain && fee * risk == (l.leg.entry + l.exitPrice) * TAKER_FEE;
      assert l.netR == gross - fee;
      assert (gross - fee) * risk == gross * risk - fee * risk;
    }
  }

  // ----- nothing passed over

  /** The leg keeps the machine busy at bar j: it is open, or closes there otherwise than by the bias
      and so leaves the bar to no new pullback. */
  predicate BusyAt(l: LegResult, j: nat) {
    l.leg.entryIndex <= j && (l.Closed? ==> j < l.exitIndex || (j == l.exitIndex && l.reason != BiasFlip))
  }

  /** Every pullback with a range past the warm-up is entered, or finds the machine busy. */
  lemma {:induction false} NonePassedOver(ln: real -> real, rules: Rules, daily: seq<Candle>, trig: seq<Candle>,
                                          j: nat, d: Direction)
    requires 40 <= j < |trig|
    requires var r := Readings(ln, daily, trig)[j]; r.atr > 0.0 && Pullback(r, rules.threshold, d)
    ensures var legs := Report(RunTo(rules, Readings(ln, daily, trig), |trig|));
            exists k | 0 <= k < |legs| :: BusyAt(legs[k], j)
  {
    hide RunTo, ReadingAt, Report, Grammar;
    var rs := Readings(ln, daily, trig);
    var legs := Report(RunTo(rules, rs, |trig|));
    CycleRunGrammar(ln, rules, daily, trig, legs);
    var k := BusyLeg(rules, rs, legs, j, |legs|);
  }

  /** Going back from the last leg to the one that is busy. */
  lemma {:induction false} BusyLeg(rules: Rules, rs: seq<Reading>, legs: seq<LegResult>, j: nat, n: nat)
    returns (k: nat)
    requires Grammar(rules, rs, legs) && WARMUP_TRIGGER_BARS <= j < |rs| && Qualifying(rules, rs[j])
    requires n <= |legs| && (n < |legs| ==> j < legs[n].leg.entryIndex)
    ensures k < n && BusyAt(legs[k], j)
    decreases n
  {
    hide Grammar;
    if n > 0 && legs[n - 1].leg.entryIndex > j {
      k := BusyLeg(rules, rs, legs, j, n - 1);
    } else {
      GapBefore(rules, rs, legs, j, n);
      k := n - 1;
    }
  }

  predicate Qualifying(rules: Rules, r: Reading) {
    r.atr > 0.0 && (Pullback(r, rules.threshold, Long) || Pullback(r, rules.threshold, Short))
  }

  /** A pullback before leg n (or before the end) and not before leg n-1 finds leg n-1 busy. */
  lemma GapBefore(rules: Rules, rs: seq<Reading>, legs: seq<LegResult>, j: nat, n: nat)
    requires Grammar(rules, rs, legs) && WARMUP_TRIGGER_BARS <= j < |rs| && Qualifying(rules, rs[j])
    requires n <= |legs| && (n < |legs| ==> j < legs[n].leg.entryIndex)
    requires n > 0 ==> legs[n - 1].leg.entryIndex <= j
    ensures n > 0 && BusyAt(legs[n - 1], j)
  {
    assert Qualifies(rules, rs[j]);
    if n < |legs| {
      assert LegOk(rules, rs, legs, n);
    }
    if n > 0 {
      assert LegOk(rules, rs, legs, n - 1);
    }
    hide Grammar, NewLeg, CloseLeg, Survives;
    assert n == |legs| ==> AtEnd(rules, rs, Last(legs)) by {
      EndsWell(rules, rs, legs);
    }
    assert Prev(legs, n) == if n == 0 then None else Some(legs[n - 1]);
  }

  lemma EndsWell(rules: Rules, rs: seq<Reading>, legs: seq<LegResult>)
    requires Grammar(rules, rs, legs)
    ensures AtEnd(rules, rs, Last(legs))
  {
    hide LegOk, AtEnd;
  }

  // ----- what a bar shows

  /** Its prices, the 10-bar Fisher value, the 14-bar range, and the structural bias of the daily bars
      that had closed, when these are the first k. */
  lemma ReadingIs(ln: real -> real, daily: seq<Candle>, trig: seq<Candle>, i: nat, k: nat)
    requires i < |trig| && k <= |daily|
    requires forall j | 0 <= j < |daily| :: j < k <==> daily[j].closeTime <= trig[i].closeTime
    ensures Readings(ln, daily, trig)[i]
            == Reading(trig[i].high, trig[i].low, trig[i].close, FisherAt(ln, trig, 10, i), AtrAt(trig, 14, i),
                       ComputeBias(daily[..k], 2, 20).bias)
  {
    hide ComputeBias, FisherAt, AtrAt, Visible;
    ClosedPrefix(daily, trig[i].closeTime, k);
  }
}
