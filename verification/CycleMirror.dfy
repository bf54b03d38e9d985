/** Mirror symmetry of whole cycle runs: turning all prices upside down swaps LONG and SHORT
    and changes nothing else (backtest.py, run_fisher_cycle_backtest). */
module CycleMirror {
  import opened Market
  import opened Bias4H
  import opened SwingStability
  import opened SwingMirror
  import opened BiasMirror
  import opened FisherCycle
  import opened Trigger1H
  import opened Atr
  import opened CycleMachine

  function MirrorReading(K: real, r: Reading): Reading {
    Reading(K - r.low, K - r.high, K - r.close, -r.fisher, r.atr, MirrorBias(r.bias))
  }

  function MirrorLeg(K: real, leg: Leg): Leg {
    Leg(Opposite(leg.direction), K - leg.entry, K - leg.stop, leg.entryIndex)
  }

  /** The leg the machine would have written upside down; only the fees, which are charged on
      price, may differ. */
  function MirrorResult(K: real, r: LegResult): LegResult {
    match r
    case Closed(leg, id, i, price, reason, _, _) => CloseLeg(MirrorLeg(K, leg), id, i, K - price, reason)
    case Unresolved(leg, id) => Unresolved(MirrorLeg(K, leg), id)
  }

  function MirrorResults(K: real, rs: seq<LegResult>): (r: seq<LegResult>)
    ensures |r| == |rs|
    ensures forall i | 0 <= i < |rs| :: r[i] == MirrorResult(K, rs[i])
  {
    if rs == [] then [] else MirrorResults(K, rs[..|rs| - 1]) + [MirrorResult(K, rs[|rs| - 1])]
  }

  function MirrorMachine(K: real, m: Machine): Machine {
    Machine(if m.leg.Some? then Some(MirrorLeg(K, m.leg.value)) else None,
            if m.macro.Some? then Some(MirrorBias(m.macro.value)) else None,
            m.cycleId, MirrorResults(K, m.legs))
  }

  lemma HitStopMirror(K: real, leg: Leg, r: Reading)
    ensures HitStop(MirrorLeg(K, leg), MirrorReading(K, r)) == HitStop(leg, r)
  {
  }

  lemma CloseMirror(K: real, leg: Leg, id: nat, i: nat, price: real, reason: ExitReason)
    ensures MirrorResult(K, CloseLeg(leg, id, i, price, reason))
            == CloseLeg(MirrorLeg(K, leg), id, i, K - price, reason)
  {
  }

  lemma NewLegMirror(K: real, rules: Rules, d: Direction, r: Reading, i: nat)
    ensures NewLeg(rules, Opposite(d), MirrorReading(K, r), i) == MirrorLeg(K, NewLeg(rules, d, r, i))
  {
  }

  lemma DecisionsMirror(K: real, rules: Rules, r: Reading, m: Machine, leg: Leg)
    ensures MacroBroken(MirrorMachine(K, m).macro, MirrorReading(K, r).bias) == MacroBroken(m.macro, r.bias)
    ensures IsExhausted(MirrorLeg(K, leg).direction, -r.fisher, rules.threshold)
            == IsExhausted(leg.direction, r.fisher, rules.threshold)
  {
    hide MirrorResults;
  }

  lemma LegsMirror(K: real, legs: seq<LegResult>, leg: Leg, id: nat, i: nat, price: real, reason: ExitReason)
    ensures MirrorResults(K, legs + [CloseLeg(leg, id, i, price, reason)])
            == MirrorResults(K, legs) + [CloseLeg(MirrorLeg(K, leg), id, i, K - price, reason)]
  {
    hide MirrorResults, MirrorResult, CloseLeg;
    CloseMirror(K, leg, id, i, price, reason);
  }

  lemma {:induction false} ManageMirror(K: real, rules: Rules, r: Reading, i: nat, m: Machine)
    ensures Manage(rules, MirrorReading(K, r), i, MirrorMachine(K, m))
            == MirrorMachine(K, Manage(rules, r, i, m))
  {
    hide MirrorResults, CloseLeg, HitStop, NewLeg, MacroBroken, IsExhausted;
    if m.leg.Some? {
      var leg := m.leg.value;
      HitStopMirror(K, leg, r);
      DecisionsMirror(K, rules, r, m, leg);
      if HitStop(leg, r) {
        LegsMirror(K, m.legs, leg, m.cycleId, i, leg.stop, StopHit);
      } else if MacroBroken(m.macro, r.bias) {
        LegsMirror(K, m.legs, leg, m.cycleId, i, r.close, BiasFlip);
      } else if IsExhausted(leg.direction, r.fisher, rules.threshold) {
        LegsMirror(K, m.legs, leg, m.cycleId, i, r.close, ExhaustionFlip);
        NewLegMirror(K, rules, Opposite(leg.direction), r, i);
      }
    }
  }

  lemma RearmMirror(K: real, rules: Rules, r: Reading, i: nat, m: Machine)
    requires m.leg.None?
    ensures Rearm(rules, MirrorReading(K, r), i, MirrorMachine(K, m))
            == MirrorMachine(K, Rearm(rules, r, i, m))
  {
  }

  lemma {:induction false} StepMirror(K: real, rules: Rules, r: Reading, i: nat, m: Machine)
    ensures Step(rules, MirrorReading(K, r), i, MirrorMachine(K, m)) == MirrorMachine(K, Step(rules, r, i, m))
  {
    ManageMirror(K, rules, r, i, m);
    if m.leg.Some? {
      HitStopMirror(K, m.leg.value, r);
    }
    var m' := Manage(rules, r, i, m);
    if m'.leg.None? {
      RearmMirror(K, rules, r, i, m');
    }
  }

  lemma {:induction false} RunMirror(K: real, rules: Rules, rs: seq<Reading>, rs': seq<Reading>, n: nat)
    requires n <= |rs| == |rs'|
    requires forall i | 0 <= i < n :: rs'[i] == MirrorReading(K, rs[i])
    ensures RunTo(rules, rs', n) == MirrorMachine(K, RunTo(rules, rs, n))
  {
    hide Step, MirrorReading;
    if n > WARMUP_TRIGGER_BARS {
      RunMirror(K, rules, rs, rs', n - 1);
      StepMirror(K, rules, rs[n - 1], n - 1, RunTo(rules, rs, n - 1));
    }
  }

  // ----- the readings of the reflected series

  lemma {:induction false} NoDoubleFractalPrefix(cs: seq<Candle>, k: nat, width: nat)
    requires k <= |cs| && NoDoubleFractal(cs, width)
    ensures NoDoubleFractal(cs[..k], width)
  {
    forall i: nat | i < k ensures !(IsFractalHigh(cs[..k], i, width) && IsFractalLow(cs[..k], i, width)) {
      FractalPrefix(cs, k, i, width);
    }
  }

  lemma {:induction false} DailyBiasMirror(K: real, daily: seq<Candle>, ts: int)
    requires Chronological(daily) && NoDoubleFractal(daily, FRACTAL_WIDTH)
    ensures DailyBiasAt(Mirror(K, daily), ts) == MirrorBias(DailyBiasAt(daily, ts))
  {
    hide NoDoubleFractal, ComputeBias;
    VisibleMirror(K, daily, ts);
    var k := VisiblePrefix(daily, ts);
    NoDoubleFractalPrefix(daily, k, FRACTAL_WIDTH);
    ComputeBiasMirror(K, Visible(daily, ts), FRACTAL_WIDTH, SR_LOOKBACK);
  }

  lemma {:induction false} ReadingMirror(ln: real -> real, K: real, daily: seq<Candle>, trig: seq<Candle>, i: nat)
    requires i < |trig| && IsLog(ln)
    requires Chronological(daily) && NoDoubleFractal(daily, FRACTAL_WIDTH)
    ensures ReadingAt(ln, Mirror(K, daily), Mirror(K, trig), i) == MirrorReading(K, ReadingAt(ln, daily, trig, i))
  {
    hide IsLog, NoDoubleFractal, DailyBiasAt;
    FisherMirror(ln, K, trig, FISHER_PERIOD, i + 1);
    AtrMirror(K, trig, ATR_PERIOD, i);
    DailyBiasMirror(K, daily, trig[i].closeTime);
  }

  // ----- the symmetry of whole runs

  ghost predicate MirrorImages(K: real, a: seq<LegResult>, b: seq<LegResult>) {
    |a| == |b| && forall k | 0 <= k < |a| :: MirrorImage(K, a[k], b[k])
  }

  /** The same leg upside down: equal bars, reason, cycle, risk and gross R. */
  ghost predicate MirrorImage(K: real, a: LegResult, b: LegResult) {
    && b.leg == MirrorLeg(K, a.leg) && Risk(b.leg) == Risk(a.leg)
    && b.cycleId == a.cycleId
    && a.Closed? == b.Closed?
    && (a.Closed? ==>
          b.exitIndex == a.exitIndex && b.reason == a.reason && b.exitPrice == K - a.exitPrice
          && b.grossR == a.grossR)
  }

  /** Every closed leg carries the R its prices give. */
  ghost predicate Booked(legs: seq<LegResult>) {
    forall k | 0 <= k < |legs| :: legs[k].Closed? ==>
      legs[k] == CloseLeg(legs[k].leg, legs[k].cycleId, legs[k].exitIndex, legs[k].exitPrice, legs[k].reason)
  }

  lemma StepBooked(rules: Rules, r: Reading, i: nat, m: Machine)
    requires Booked(m.legs)
    ensures Booked(Step(rules, r, i, m).legs)
  {
    hide HitStop, MacroBroken, IsExhausted, OpeningDirection, NewLeg;
  }

  lemma {:induction false} RunBooked(rules: Rules, rs: seq<Reading>, n: nat)
    requires n <= |rs|
    ensures Booked(RunTo(rules, rs, n).legs)
  {
    if n > WARMUP_TRIGGER_BARS {
      RunBooked(rules, rs, n - 1);
      StepBooked(rules, rs[n - 1], n - 1, RunTo(rules, rs, n - 1));
    }
  }

  lemma MirrorResultIsImage(K: real, r: LegResult)
    requires r.Closed? ==> r == CloseLeg(r.leg, r.cycleId, r.exitIndex, r.exitPrice, r.reason)
    ensures MirrorImage(K, r, MirrorResult(K, r))
  {
    if r.Closed? {
      assert Signed(Opposite(r.leg.direction), (K - r.exitPrice) - (K - r.leg.entry))
             == Signed(r.leg.direction, r.exitPrice - r.leg.entry);
    }
  }

  /** Reflecting both price series reflects the run: same legs with LONG and SHORT swapped,
      same bars, same reasons, same cycles, equal gross R. */
  lemma {:induction false} CycleRunMirror(ln: real -> real, K: real, rules: Rules,
                                          daily: seq<Candle>, trig: seq<Candle>)
    requires IsLog(ln)
    requires Chronological(daily) && NoDoubleFractal(daily, FRACTAL_WIDTH)
    ensures MirrorImages(K, Report(RunTo(rules, Readings(ln, daily, trig), |trig|)),
                         Report(RunTo(rules, Readings(ln, Mirror(K, daily), Mirror(K, trig)), |trig|)))
  {
    hide IsLog, NoDoubleFractal, ReadingAt, Step, MirrorImage;
    var rs, rs' := Readings(ln, daily, trig), Readings(ln, Mirror(K, daily), Mirror(K, trig));
    forall i | 0 <= i < |trig| ensures rs'[i] == MirrorReading(K, rs[i]) {
      ReadingMirror(ln, K, daily, trig, i);
    }
    RunMirror(K, rules, rs, rs', |trig|);
    RunBooked(rules, rs, |trig|);
    var a, b := Report(RunTo(rules, rs, |trig|)), Report(RunTo(rules, rs', |trig|));
    forall k | 0 <= k < |a| ensures MirrorImage(K, a[k], b[k]) {
      assert b[k] == MirrorResult(K, a[k]);
      MirrorResultIsImage(K, a[k]);
    }
  }
}
