/** backtest.py, run_fisher_cycle_backtest: the FLAT/LONG/SHORT machine, one leg at a time,
    legs grouped into macro cycles. */
module CycleMachine {
  import opened Market
  import opened FisherCycle
  import opened Trigger1H
  import opened Atr

  const WARMUP_TRIGGER_BARS: nat := 40

  datatype Rules = Rules(threshold: real, multiplier: real)

  /** What the machine reads at one bar. */
  datatype Reading = Reading(high: real, low: real, close: real, fisher: real, atr: real, bias: Bias)

  datatype Leg = Leg(direction: Direction, entry: real, stop: real, entryIndex: nat)

  datatype ExitReason = StopHit | BiasFlip | ExhaustionFlip

  datatype LegResult =
    | Closed(leg: Leg, cycleId: nat, exitIndex: nat, exitPrice: real, reason: ExitReason,
             grossR: real, netR: real)
    | Unresolved(leg: Leg, cycleId: nat)

  /** No open leg is FLAT. */
  datatype Machine = Machine(leg: Option<Leg>, macro: Option<Bias>, cycleId: nat, legs: seq<LegResult>)

  const START := Machine(None, None, 0, [])

  function Risk(leg: Leg): real {
    Abs(leg.entry - leg.stop)
  }

  function Signed(d: Direction, x: real): real {
    if d == Long then x else -x
  }

  /** _cycle_leg_result */
  function CloseLeg(leg: Leg, cycleId: nat, i: nat, price: real, reason: ExitReason): LegResult {
    var risk := Risk(leg);
    var gross := if risk != 0.0 then Signed(leg.direction, price - leg.entry) / risk else 0.0;
    var fee := if risk != 0.0 then (leg.entry + price) * TAKER_FEE / risk else 0.0;
    Closed(leg, cycleId, i, price, reason, gross, gross - fee)
  }

  predicate HitStop(leg: Leg, r: Reading) {
    if leg.direction == Long then r.low <= leg.stop else r.high >= leg.stop
  }

  function NewLeg(rules: Rules, d: Direction, r: Reading, i: nat): Leg {
    Leg(d, r.close, LegStop(d, r.close, r.atr, rules.multiplier), i)
  }

  /** The open leg's turn: stop first, then the macro bias, then the exhaustion flip. */
  function Manage(rules: Rules, r: Reading, i: nat, m: Machine): Machine {
    match m.leg
    case None => m
    case Some(leg) =>
      if HitStop(leg, r) then
        m.(leg := None, legs := m.legs + [CloseLeg(leg, m.cycleId, i, leg.stop, StopHit)])
      else if MacroBroken(m.macro, r.bias) then
        m.(leg := None, macro := None, legs := m.legs + [CloseLeg(leg, m.cycleId, i, r.close, BiasFlip)])
      else if IsExhausted(leg.direction, r.fisher, rules.threshold) then
        m.(leg := Some(NewLeg(rules, Opposite(leg.direction), r, i)),
           legs := m.legs + [CloseLeg(leg, m.cycleId, i, r.close, ExhaustionFlip)])
      else m
  }

  /** From FLAT: a stale cycle expires, then a pullback may open a leg. */
  function Rearm(rules: Rules, r: Reading, i: nat, m: Machine): Machine {
    var macro := if MacroBroken(m.macro, r.bias) then None else m.macro;
    var theBias := if macro.Some? then macro.value else r.bias;
    match OpeningDirection(theBias, r.fisher, rules.threshold)
    case None => m.(macro := macro)
    case Some(d) =>
      m.(leg := Some(NewLeg(rules, d, r, i)), macro := Some(theBias),
         cycleId := if macro.None? then m.cycleId + 1 else m.cycleId)
  }

  function Step(rules: Rules, r: Reading, i: nat, m: Machine): Machine {
    var stopped := m.leg.Some? && HitStop(m.leg.value, r);
    var m' := Manage(rules, r, i, m);
    if m'.leg.None? && !stopped && r.atr > 0.0 then Rearm(rules, r, i, m') else m'
  }

  /** The machine after the bars before n. */
  function RunTo(rules: Rules, rs: seq<Reading>, n: nat): Machine
    requires n <= |rs|
  {
    if n <= WARMUP_TRIGGER_BARS then START
    else Step(rules, rs[n - 1], n - 1, RunTo(rules, rs, n - 1))
  }

  /** The trade list: a leg still open at the end of the data is flushed as unresolved. */
  function Report(m: Machine): seq<LegResult> {
    m.legs + if m.leg.Some? then [Unresolved(m.leg.value, m.cycleId)] else []
  }

  function ReadingAt(ln: real -> real, daily: seq<Candle>, trig: seq<Candle>, i: nat): Reading
    requires i < |trig|
  {
    Reading(trig[i].high, trig[i].low, trig[i].close,
            FisherAt(ln, trig, FISHER_PERIOD, i), AtrAt(trig, ATR_PERIOD, i),
            DailyBiasAt(daily, trig[i].closeTime))
  }

  function Readings(ln: real -> real, daily: seq<Candle>, trig: seq<Candle>): (rs: seq<Reading>)
    ensures |rs| == |trig|
    ensures forall i | 0 <= i < |trig| :: rs[i] == ReadingAt(ln, daily, trig, i)
  {
    seq(|trig|, i requires 0 <= i < |trig| => ReadingAt(ln, daily, trig, i))
  }

  method RunFisherCycle(ln: real -> real, daily: seq<Candle>, trig: seq<Candle>,
                        threshold: real, multiplier: real)
    returns (legs: seq<LegResult>)
    ensures legs == Report(RunTo(Rules(threshold, multiplier), Readings(ln, daily, trig), |trig|))
  {
    hide Step, FisherAt, AtrAt, DailyBiasAt;
    var rules := Rules(threshold, multiplier);
    ghost var rs := Readings(ln, daily, trig);
    var fisherLine, _ := FisherTransform(ln, trig, FISHER_PERIOD);
    var atrSeries := WilderAtr(trig, ATR_PERIOD);

    legs := [];
    var leg: Option<Leg> := None;
    var macro: Option<Bias> := None;
    var cycleId: nat := 0;
    var i := WARMUP_TRIGGER_BARS;
    while i < |trig|
      invariant i >= WARMUP_TRIGGER_BARS
      invariant i <= WARMUP_TRIGGER_BARS || i <= |trig|
      invariant Machine(leg, macro, cycleId, legs) == RunTo(rules, rs, if i <= |trig| then i else |trig|)
    {
      var r := Reading(trig[i].high, trig[i].low, trig[i].close, fisherLine[i], atrSeries.value[i],
                       DailyBiasAt(daily, trig[i].closeTime));
      assert rs[i] == r;
      leg, macro, cycleId, legs := Bar(rules, r, i, leg, macro, cycleId, legs);
      i := i + 1;
    }
    if leg.Some? {
      legs := legs + [Unresolved(leg.value, cycleId)];
    }
  }

  /** One pass of the loop body, updating the four loop variables. */
  method Bar(rules: Rules, r: Reading, i: nat,
             leg0: Option<Leg>, macro0: Option<Bias>, cycleId0: nat, legs0: seq<LegResult>)
    returns (leg: Option<Leg>, macro: Option<Bias>, cycleId: nat, legs: seq<LegResult>)
    ensures Machine(leg, macro, cycleId, legs) == Step(rules, r, i, Machine(leg0, macro0, cycleId0, legs0))
  {
    leg, macro, cycleId, legs := leg0, macro0, cycleId0, legs0;
    var stoppedThisBar := false;
    if leg.Some? {
      var open := leg.value;
      var isLong := open.direction == Long;
      var hitStop := if isLong then r.low <= open.stop else r.high >= open.stop;
      if hitStop {
        legs := legs + [CloseLeg(open, cycleId, i, open.stop, StopHit)];
        leg, stoppedThisBar := None, true;
      } else if MacroBroken(macro, r.bias) {
        legs := legs + [CloseLeg(open, cycleId, i, r.close, BiasFlip)];
        leg, macro := None, None;
      } else if IsExhausted(open.direction, r.fisher, rules.threshold) {
        legs := legs + [CloseLeg(open, cycleId, i, r.close, ExhaustionFlip)];
        var newDir := if isLong then Short else Long;
        leg := Some(Leg(newDir, r.close, LegStop(newDir, r.close, r.atr, rules.multiplier), i));
      }
    }
    if leg.None? && !stoppedThisBar && r.atr > 0.0 {
      if macro.Some? && MacroBroken(macro, r.bias) {
        macro := None;
      }
      var theBias := if macro.Some? then macro.value else r.bias;
      var direction := OpeningDirection(theBias, r.fisher, rules.threshold);
      if direction.Some? {
        if macro.None? {
          macro := Some(theBias);
          cycleId := cycleId + 1;
        }
        leg := Some(NewLeg(rules, direction.value, r, i));
      }
    }
  }
}
