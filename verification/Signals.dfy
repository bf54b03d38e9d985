/** strategy/signals.py: stop and target models and the reward/risk gate. The confluence votes
    (their common direction) and the bias result are inputs. */
module Signals {
  import opened Market
  import opened Reals
  import opened Bias4H
  import opened Atr

  const MIN_REWARD_RISK: real := 2.0
  const STRUCTURAL_STOP_BUFFER: real := 0.0015

  datatype StopModel = StructuralStop | HybridStop(atrMultiplier: real)

  datatype TargetModel = NearestStructure | FibExtensionPreferred | BlueSkyAtr(multiplier: real)

  datatype Signal = Signal(direction: Direction, entry: real, stop: real, target: real, rewardRisk: real)

  datatype Suppression = RewardRisk | Fisher4HExhaustion | ExhaustionStanddown

  datatype Decision =
    | NoSignal
    | Suppressed(direction: Direction, rewardRisk: real, kind: Suppression)
    | Accepted(signal: Signal)

  /** The two optional entry filters; a filter that is on needs its value. */
  datatype Filters = Filters(fisherOn: bool, fisher: Option<real>, exhaustion: real,
                             standdownOn: bool, funding: Option<real>, fundingThreshold: real,
                             oiZ: Option<real>, oiZMin: Option<real>)

  // ----- levels

  function PricesOfKind(sr: seq<SRLevel>, kind: LevelKind): seq<real> {
    if sr == [] then [] else
    var last := sr[|sr| - 1];
    PricesOfKind(sr[..|sr| - 1], kind) + if last.kind == kind then [last.price] else []
  }

  function FibValues(fib: FibLevels): seq<real> {
    match fib
    case NoLevels => []
    case Levels(r236, r382, r500, r618, r786, x1272, x1618) => [r236, r382, r500, r618, r786, x1272, x1618]
  }

  function Extensions(fib: FibLevels): seq<real> {
    match fib
    case NoLevels => []
    case Levels(_, _, _, _, _, x1272, x1618) => [x1272, x1618]
  }

  /** Supports of a long lie below, resistances above; for a short the other way round. */
  function OwnKind(d: Direction): LevelKind {
    if d == Long then Resistance else Support
  }

  /** The nearest of `ps` strictly beyond x in the direction of profit. */
  function NextBeyond(d: Direction, ps: seq<real>, x: real): Option<real> {
    if d == Long then LowestAbove(ps, x) else HighestBelow(ps, x)
  }

  function NearestSupport(br: BiasResult, price: real): Option<real> {
    HighestBelow(PricesOfKind(br.sr, Support), price)
  }

  function NearestResistance(br: BiasResult, price: real): Option<real> {
    LowestAbove(PricesOfKind(br.sr, Resistance), price)
  }

  function NextOpposing(d: Direction, br: BiasResult, price: real): Option<real> {
    NextBeyond(d, FibValues(br.fib) + PricesOfKind(br.sr, OwnKind(d)), price)
  }

  /** a lies further in the direction of profit than b. */
  predicate Beyond(d: Direction, a: real, b: real) {
    if d == Long then a > b else a < b
  }

  // ----- stop and target

  function LastAtr(trig: seq<Candle>): real {
    if trig == [] then 0.0 else AtrAt(trig, ATR_PERIOD, |trig| - 1)
  }

  function ResolveStop(d: Direction, entry: real, structural: real, atr: real, model: StopModel): real {
    match model
    case StructuralStop => structural
    case HybridStop(k) =>
      if atr <= 0.0 then structural
      else if d == Long then Min(structural, entry - k * atr) else Max(structural, entry + k * atr)
  }

  /** The nearest extension strictly beyond `nearest`, capped at the first level of the target's
      kind between them. */
  function Extended(d: Direction, br: BiasResult, nearest: real): real {
    match NextBeyond(d, Extensions(br.fib), nearest)
    case None => nearest
    case Some(ext) =>
      var bound := NextBeyond(d, PricesOfKind(br.sr, OwnKind(d)), nearest);
      if bound.Some? && Beyond(d, ext, bound.value) then bound.value else ext
  }

  function ResolveTarget(d: Direction, entry: real, br: BiasResult, atr: real, model: TargetModel): Option<real> {
    var nearest := NextOpposing(d, br, entry);
    if model == NearestStructure then nearest
    else match nearest
      case Some(n) => Some(Extended(d, br, n))
      case None =>
        if model.FibExtensionPreferred? || atr <= 0.0 then None
        else Some(if d == Long then entry + model.multiplier * atr else entry - model.multiplier * atr)
  }

  // ----- filters

  predicate StanddownSuppresses(d: Direction, f: Filters, funding: real) {
    (if d == Long then funding >= f.fundingThreshold else funding <= 100.0 - f.fundingThreshold)
    && (f.oiZMin.Some? ==> f.oiZ.Some? && f.oiZ.value >= f.oiZMin.value)
  }

  function Filtered(s: Signal, f: Filters): Result<Decision> {
    if f.fisherOn && f.fisher.None? then Err("fisher4h_entry_filter requires fisher4h_value from the caller")
    else if f.fisherOn && (if s.direction == Long then f.fisher.value >= f.exhaustion
                           else f.fisher.value <= -f.exhaustion)
    then Ok(Suppressed(s.direction, s.rewardRisk, Fisher4HExhaustion))
    else if f.standdownOn && f.funding.None?
    then Err("standdown_entry_filter requires funding_pctile_value from the caller")
    else if f.standdownOn && StanddownSuppresses(s.direction, f, f.funding.value)
    then Ok(Suppressed(s.direction, s.rewardRisk, ExhaustionStanddown))
    else Ok(Accepted(s))
  }

  // ----- the decision

  function StructuralLevel(d: Direction, br: BiasResult, entry: real): Option<real> {
    match if d == Long then NearestSupport(br, entry) else NearestResistance(br, entry)
    case None => None
    case Some(level) =>
      Some(if d == Long then level * (1.0 - STRUCTURAL_STOP_BUFFER) else level * (1.0 + STRUCTURAL_STOP_BUFFER))
  }

  function Gate(d: Direction, entry: real, stop: real, target: real, f: Filters): Result<Decision> {
    var risk, reward := Abs(entry - stop), Abs(target - entry);
    if risk == 0.0 then Ok(NoSignal) else
    var rr := reward / risk;
    if rr < MIN_REWARD_RISK then Ok(Suppressed(d, rr, RewardRisk))
    else Filtered(Signal(d, entry, stop, target, rr), f)
  }

  /** evaluate_signal after the votes: `entry` is the close of the last trigger bar, `atr` the
      last value of its Wilder ATR. */
  function Decide(d: Option<Direction>, br: BiasResult, entry: real, atr: real,
                  stops: StopModel, targets: TargetModel, f: Filters): Result<Decision>
  {
    match d
    case None => Ok(NoSignal)
    case Some(d) =>
      match StructuralLevel(d, br, entry)
      case None => Ok(NoSignal)
      case Some(structural) =>
        match ResolveTarget(d, entry, br, atr, targets)
        case None => Ok(NoSignal)
        case Some(target) => Gate(d, entry, ResolveStop(d, entry, structural, atr, stops), target, f)
  }

  /** The close of the last trigger bar. */
  function EntryPrice(trig: seq<Candle>): real
    requires trig != []
  {
    trig[|trig| - 1].close
  }

  function EvaluateSignal(d: Option<Direction>, br: BiasResult, trig: seq<Candle>,
                          stops: StopModel, targets: TargetModel, f: Filters): Result<Decision>
    requires trig != []
  {
    Decide(d, br, EntryPrice(trig), LastAtr(trig), stops, targets, f)
  }

  // ----- ordering of the target models

  lemma NextBeyondIs(d: Direction, ps: seq<real>, x: real)
    ensures var r := NextBeyond(d, ps, x);
            && (r.Some? ==> Beyond(d, r.value, x) && r.value in ps)
            && (forall i | 0 <= i < |ps| && Beyond(d, ps[i], x) :: r.Some? && !Beyond(d, r.value, ps[i]))
  {
    LowestAboveIs(ps, x);
    HighestBelowIs(ps, x);
  }

  /** An extended target is never nearer than the nearest level, and no S/R level of the
      target's own kind lies strictly between the two. */
  lemma ExtensionSkipsNoLevel(d: Direction, br: BiasResult, nearest: real)
    ensures !Beyond(d, nearest, Extended(d, br, nearest))
    ensures forall p | p in PricesOfKind(br.sr, OwnKind(d)) ::
              !(Beyond(d, p, nearest) && Beyond(d, Extended(d, br, nearest), p))
    ensures Extended(d, br, nearest) == nearest
            || Extended(d, br, nearest) in Extensions(br.fib) + PricesOfKind(br.sr, OwnKind(d))
  {
    var ps := PricesOfKind(br.sr, OwnKind(d));
    NextBeyondIs(d, Extensions(br.fib), nearest);
    NextBeyondIs(d, ps, nearest);
    forall p | p in ps
      ensures !(Beyond(d, p, nearest) && Beyond(d, Extended(d, br, nearest), p))
    {
      var i :| 0 <= i < |ps| && ps[i] == p;
    }
  }

  lemma RatioGrows(x: real, y: real, risk: real)
    requires risk > 0.0 && 0.0 <= x <= y
    ensures x / risk <= y / risk
  {
    assert x * risk <= y * risk by { assert (y - x) * risk >= 0.0; }
    QuotientOrder(x, risk, y, risk);
  }

  lemma FilterSame(s: Signal, s': Signal, f: Filters)
    requires s.direction == s'.direction
    ensures Filtered(s, f).Ok? && Filtered(s, f).value.Accepted? ==>
              Filtered(s, f) == Ok(Accepted(s)) && Filtered(s', f) == Ok(Accepted(s'))
  {
  }

  /** Whatever is accepted with the nearest target is accepted with the extended one: same
      entry, same stop, at least the same reward/risk. */
  lemma ExtensionDominates(d: Option<Direction>, br: BiasResult, trig: seq<Candle>, stops: StopModel, f: Filters)
    requires trig != []
    ensures var near, far := EvaluateSignal(d, br, trig, stops, NearestStructure, f),
                             EvaluateSignal(d, br, trig, stops, FibExtensionPreferred, f);
            near.Ok? && near.value.Accepted? ==>
              && far.Ok? && far.value.Accepted?
              && far.value.signal.direction == near.value.signal.direction
              && far.value.signal.entry == near.value.signal.entry
              && far.value.signal.stop == near.value.signal.stop
              && far.value.signal.rewardRisk >= near.value.signal.rewardRisk
  {
    var entry, atr := EntryPrice(trig), LastAtr(trig);
    hide LastAtr, Extended, Filtered, StructuralLevel, ResolveStop;
    var near := EvaluateSignal(d, br, trig, stops, NearestStructure, f);
    if near.Ok? && near.value.Accepted? {
      var n := NextOpposing(d.value, br, entry).value;
      NextBeyondIs(d.value, FibValues(br.fib) + PricesOfKind(br.sr, OwnKind(d.value)), entry);
      ExtensionSkipsNoLevel(d.value, br, n);
      var stop := ResolveStop(d.value, entry, StructuralLevel(d.value, br, entry).value, atr, stops);
      GateMonotone(d.value, entry, stop, n, Extended(d.value, br, n), f);
    }
  }

  lemma GateMonotone(d: Direction, entry: real, stop: real, n: real, t: real, f: Filters)
    requires Beyond(d, n, entry) && !Beyond(d, n, t)
    ensures var near, far := Gate(d, entry, stop, n, f), Gate(d, entry, stop, t, f);
            near.Ok? && near.value.Accepted? ==>
              && near.value.signal == Signal(d, entry, stop, n, near.value.signal.rewardRisk)
              && far.Ok? && far.value.Accepted?
              && far.value.signal == Signal(d, entry, stop, t, far.value.signal.rewardRisk)
              && far.value.signal.rewardRisk >= near.value.signal.rewardRisk
  {
    hide Filtered;
    var risk := Abs(entry - stop);
    if risk != 0.0 {
      RatioGrows(Abs(n - entry), Abs(t - entry), risk);
      FilterSame(Signal(d, entry, stop, n, Abs(n - entry) / risk), Signal(d, entry, stop, t, Abs(t - entry) / risk), f);
    }
  }

  /** Every decision reached under fib_extension_preferred, acceptance or suppression, is reached
      unchanged under blue_sky_atr, which only adds where there was no level at all. */
  lemma BlueSkyOnlyAdds(d: Option<Direction>, br: BiasResult, trig: seq<Candle>, stops: StopModel,
                        multiplier: real, f: Filters)
    requires trig != []
    ensures var fib, sky := EvaluateSignal(d, br, trig, stops, FibExtensionPreferred, f),
                            EvaluateSignal(d, br, trig, stops, BlueSkyAtr(multiplier), f);
            && (fib != Ok(NoSignal) ==> sky == fib)
            && (sky != fib ==> d.Some? && NextOpposing(d.value, br, EntryPrice(trig)).None? && LastAtr(trig) > 0.0)
  {
    var entry, atr := EntryPrice(trig), LastAtr(trig);
    hide LastAtr, Gate, Extended, NextOpposing, StructuralLevel, ResolveStop;
  }

  // ----- ordering of the stop models

  predicate PositiveLevels(br: BiasResult) {
    forall i | 0 <= i < |br.sr| :: br.sr[i].price > 0.0
  }

  lemma {:induction false} PositivePrices(sr: seq<SRLevel>, kind: LevelKind)
    requires forall i | 0 <= i < |sr| :: sr[i].price > 0.0
    ensures forall p | p in PricesOfKind(sr, kind) :: p > 0.0
  {
    if sr != [] {
      PositivePrices(sr[..|sr| - 1], kind);
    }
  }

  /** With positive prices the structural stop is on the losing side. */
  lemma StructuralOnLosingSide(d: Direction, br: BiasResult, entry: real)
    requires PositiveLevels(br)
    ensures var s := StructuralLevel(d, br, entry); s.Some? ==> Beyond(d, entry, s.value)
  {
    LowestAboveIs(PricesOfKind(br.sr, Resistance), entry);
    HighestBelowIs(PricesOfKind(br.sr, Support), entry);
    PositivePrices(br.sr, Resistance);
    PositivePrices(br.sr, Support);
  }

  /** The hybrid stop only widens, so it accepts nothing that the structural stop rejects; the
      structural signal has the same target and at least the reward/risk. */
  lemma HybridAcceptsLess(d: Option<Direction>, br: BiasResult, trig: seq<Candle>, k: real,
                          targets: TargetModel, f: Filters)
    requires PositiveLevels(br) && trig != []
    ensures var hybrid, plain := EvaluateSignal(d, br, trig, HybridStop(k), targets, f),
                                 EvaluateSignal(d, br, trig, StructuralStop, targets, f);
            hybrid.Ok? && hybrid.value.Accepted? ==>
              && plain.Ok? && plain.value.Accepted?
              && plain.value.signal.target == hybrid.value.signal.target
              && plain.value.signal.rewardRisk >= hybrid.value.signal.rewardRisk
              && !Beyond(d.value, hybrid.value.signal.stop, plain.value.signal.stop)
  {
    var entry, atr := EntryPrice(trig), LastAtr(trig);
    hide LastAtr, Gate, ResolveTarget, StructuralLevel, PositiveLevels;
    var hybrid := EvaluateSignal(d, br, trig, HybridStop(k), targets, f);
    if hybrid.Ok? && hybrid.value.Accepted? {
      StructuralOnLosingSide(d.value, br, entry);
      var s := StructuralLevel(d.value, br, entry).value;
      GateWiderStop(d.value, entry, s, ResolveStop(d.value, entry, s, atr, HybridStop(k)),
                    ResolveTarget(d.value, entry, br, atr, targets).value, f);
    }
  }

  lemma GateWiderStop(d: Direction, entry: real, stop: real, wide: real, target: real, f: Filters)
    requires Beyond(d, entry, stop) && !Beyond(d, wide, stop)
    ensures var hybrid, plain := Gate(d, entry, wide, target, f), Gate(d, entry, stop, target, f);
            hybrid.Ok? && hybrid.value.Accepted? ==>
              && hybrid.value.signal == Signal(d, entry, wide, target, hybrid.value.signal.rewardRisk)
              && plain.Ok? && plain.value.Accepted?
              && plain.value.signal == Signal(d, entry, stop, target, plain.value.signal.rewardRisk)
              && plain.value.signal.rewardRisk >= hybrid.value.signal.rewardRisk
  {
    hide Filtered;
    var reward := Abs(target - entry);
    assert reward * Abs(entry - stop) <= reward * Abs(entry - wide) by {
      assert reward * (Abs(entry - wide) - Abs(entry - stop)) >= 0.0;
    }
    QuotientOrder(reward, Abs(entry - wide), reward, Abs(entry - stop));
    FilterSame(Signal(d, entry, wide, target, reward / Abs(entry - wide)),
               Signal(d, entry, stop, target, reward / Abs(entry - stop)), f);
  }

  // ----- an accepted signal

  /** With positive levels an accepted signal has its stop on the losing side, a reward/risk of at
      least two that is the actual ratio, and, when its target is a level, that target on the
      winning side. */
  lemma AcceptedSignal(d: Option<Direction>, br: BiasResult, trig: seq<Candle>,
                       stops: StopModel, targets: TargetModel, f: Filters)
    requires PositiveLevels(br) && trig != []
    ensures var r := EvaluateSignal(d, br, trig, stops, targets, f);
            r.Ok? && r.value.Accepted? ==>
              var s := r.value.signal;
              && d == Some(s.direction) && s.entry == EntryPrice(trig)
              && Beyond(s.direction, s.entry, s.stop)
              && s.rewardRisk >= MIN_REWARD_RISK
              && s.rewardRisk * Abs(s.entry - s.stop) == Abs(s.target - s.entry)
              && (NextOpposing(s.direction, br, EntryPrice(trig)).Some? ==> Beyond(s.direction, s.target, s.entry))
  {
    hide LastAtr, StructuralLevel, PositiveLevels, ResolveStop, ResolveTarget, Gate, NextOpposing, Decide;
    var entry, atr := EntryPrice(trig), LastAtr(trig);
    var r := EvaluateSignal(d, br, trig, stops, targets, f);
    if r.Ok? && r.value.Accepted? {
      AcceptedByGate(d, br, entry, atr, stops, targets, f);
      var structural := StructuralLevel(d.value, br, entry).value;
      var t := ResolveTarget(d.value, entry, br, atr, targets).value;
      StructuralOnLosingSide(d.value, br, entry);
      StopOnLosingSide(d.value, entry, structural, atr, stops);
      GateAccepts(d.value, entry, ResolveStop(d.value, entry, structural, atr, stops), t, f);
      TargetOnWinningSide(d.value, entry, br, atr, targets);
    }
  }

  lemma AcceptedByGate(d: Option<Direction>, br: BiasResult, entry: real, atr: real,
                       stops: StopModel, targets: TargetModel, f: Filters)
    ensures var r := Decide(d, br, entry, atr, stops, targets, f);
            r.Ok? && r.value.Accepted? ==>
              && d.Some? && StructuralLevel(d.value, br, entry).Some?
              && ResolveTarget(d.value, entry, br, atr, targets).Some?
              && r == Gate(d.value, entry,
                           ResolveStop(d.value, entry, StructuralLevel(d.value, br, entry).value, atr, stops),
                           ResolveTarget(d.value, entry, br, atr, targets).value, f)
  {
    hide StructuralLevel, ResolveStop, ResolveTarget, Gate;
  }

  lemma StopOnLosingSide(d: Direction, entry: real, structural: real, atr: real, stops: StopModel)
    requires Beyond(d, entry, structural)
    ensures Beyond(d, entry, ResolveStop(d, entry, structural, atr, stops))
  {
  }

  lemma TargetOnWinningSide(d: Direction, entry: real, br: BiasResult, atr: real, targets: TargetModel)
    ensures var t := ResolveTarget(d, entry, br, atr, targets);
            t.Some? && NextOpposing(d, br, entry).Some? ==> Beyond(d, t.value, entry)
  {
    hide Extended, NextOpposing;
    NextOpposingBeyond(d, br, entry);
    if NextOpposing(d, br, entry).Some? {
      ExtensionSkipsNoLevel(d, br, NextOpposing(d, br, entry).value);
    }
  }

  lemma NextOpposingBeyond(d: Direction, br: BiasResult, price: real)
    ensures var n := NextOpposing(d, br, price); n.Some? ==> Beyond(d, n.value, price)
  {
    NextBeyondIs(d, FibValues(br.fib) + PricesOfKind(br.sr, OwnKind(d)), price);
  }

  lemma GateAccepts(d: Direction, entry: real, stop: real, target: real, f: Filters)
    ensures var r := Gate(d, entry, stop, target, f);
            r.Ok? && r.value.Accepted? ==>
              && r.value.signal == Signal(d, entry, stop, target, r.value.signal.rewardRisk)
              && r.value.signal.rewardRisk >= MIN_REWARD_RISK
              && r.value.signal.rewardRisk * Abs(entry - stop) == Abs(target - entry)
  {
    hide Filtered;
    var risk, reward := Abs(entry - stop), Abs(target - entry);
    if risk != 0.0 {
      var rr := reward / risk;
      assert rr * risk == reward;
      var s := Signal(d, entry, stop, target, rr);
      FilterSame(s, s, f);
    }
  }
}
