/** strategy/signals.py, evaluate_signal: the decision from the levels and the filters alone. */
module SignalLaw {
  import opened Market
  import opened Reals
  import opened Bias4H
  import opened Signals

  /** a is on the winning side of b. */
  predicate Ahead(d: Direction, a: real, b: real) {
    if d == Long then a > b else a < b
  }

  ghost predicate HasLevel(br: BiasResult, kind: LevelKind, px: real) {
    exists k | 0 <= k < |br.sr| :: br.sr[k].kind == kind && br.sr[k].price == px
  }

  predicate IsExtension(br: BiasResult, px: real) {
    br.fib.Levels? && (px == br.fib.x1272 || px == br.fib.x1618)
  }

  predicate IsFib(br: BiasResult, px: real) {
    && br.fib.Levels?
    && (IsExtension(br, px) || px == br.fib.r236 || px == br.fib.r382 || px == br.fib.r500
        || px == br.fib.r618 || px == br.fib.r786)
  }

  /** Levels that stop a trade this way lie behind it: supports of a long, resistances of a short; its
      targets are levels of the other kind. */
  function Behind(d: Direction): LevelKind {
    if d == Long then Support else Resistance
  }

  function InFront(d: Direction): LevelKind {
    if d == Long then Resistance else Support
  }

  /** The nearest level behind the price. */
  ghost predicate AnchorIs(d: Direction, br: BiasResult, price: real, level: real) {
    && HasLevel(br, Behind(d), level) && Ahead(d, price, level)
    && forall p | HasLevel(br, Behind(d), p) && Ahead(d, price, p) :: !Ahead(d, p, level)
  }

  ghost predicate Opposing(d: Direction, br: BiasResult, p: real) {
    IsFib(br, p) || HasLevel(br, InFront(d), p)
  }

  /** The nearest Fibonacci value or level in front of the price. */
  ghost predicate NearestIs(d: Direction, br: BiasResult, price: real, n: real) {
    && Opposing(d, br, n) && Ahead(d, n, price)
    && forall p | Opposing(d, br, p) && Ahead(d, p, price) :: !Ahead(d, n, p)
  }

  /** The nearer extension beyond n. */
  ghost predicate NextExtensionIs(d: Direction, br: BiasResult, n: real, e: real) {
    IsExtension(br, e) && Ahead(d, e, n) && forall p | IsExtension(br, p) && Ahead(d, p, n) :: !Ahead(d, e, p)
  }

  /** The level in front of n that is the first before e. */
  ghost predicate CapIs(d: Direction, br: BiasResult, n: real, e: real, cap: real) {
    && HasLevel(br, InFront(d), cap) && Ahead(d, cap, n) && Ahead(d, e, cap)
    && forall p | HasLevel(br, InFront(d), p) && Ahead(d, p, n) :: !Ahead(d, cap, p)
  }

  /** From n out to the next extension, unless a level comes first. */
  ghost predicate ExtendedIs(d: Direction, br: BiasResult, n: real, t: real) {
    || ((forall e :: !NextExtensionIs(d, br, n, e)) && t == n)
    || exists e | NextExtensionIs(d, br, n, e) ::
         CapIs(d, br, n, e, t) || (t == e && forall cap :: !CapIs(d, br, n, e, cap))
  }

  ghost predicate TargetIs(d: Direction, br: BiasResult, entry: real, atr: real, model: TargetModel, t: real) {
    || (exists n | NearestIs(d, br, entry, n) :: if model.NearestStructure? then t == n else ExtendedIs(d, br, n, t))
    || (&& (forall n :: !NearestIs(d, br, entry, n)) && model.BlueSkyAtr? && atr > 0.0
        && t == if d == Long then entry + model.multiplier * atr else entry - model.multiplier * atr)
  }

  /** The level with 0.15 percent to spare, or the multiple of ATR if that is further away. */
  predicate StopIs(d: Direction, level: real, entry: real, atr: real, model: StopModel, stop: real) {
    var structural := if d == Long then level * 0.9985 else level * 1.0015;
    match model
    case StructuralStop => stop == structural
    case HybridStop(k) =>
      if atr <= 0.0 then stop == structural
      else
        var noise := if d == Long then entry - k * atr else entry + k * atr;
        (stop == structural || stop == noise) && !Ahead(d, stop, structural) && !Ahead(d, stop, noise)
  }

  /** The 4H Fisher value is already extended the trade's way. */
  predicate Chases(d: Direction, f: Filters) {
    && f.fisherOn && f.fisher.Some?
    && if d == Long then f.fisher.value >= f.exhaustion else f.fisher.value <= -f.exhaustion
  }

  /** Funding is crowded the trade's way, and open interest, if it is looked at, high. */
  predicate Crowded(d: Direction, f: Filters) {
    && f.standdownOn && f.funding.Some?
    && (if d == Long then f.funding.value >= f.fundingThreshold else f.funding.value <= 100.0 - f.fundingThreshold)
    && (f.oiZMin.Some? ==> f.oiZ.Some? && f.oiZ.value >= f.oiZMin.value)
  }

  /** What becomes of a trade with this stop and target. */
  ghost predicate Decides(d: Direction, entry: real, stop: real, t: real, f: Filters, r: Result<Decision>) {
    var risk := if entry >= stop then entry - stop else stop - entry;
    var reward := if t >= entry then t - entry else entry - t;
    if risk == 0.0 then r == Ok(NoSignal)
    else if reward < 2.0 * risk then exists rr :: rr * risk == reward && r == Ok(Suppressed(d, rr, RewardRisk))
    else exists rr :: rr * risk == reward && FiltersDecide(Signal(d, entry, stop, t, rr), f, r)
  }

  /** A filter that is on needs its value; the Fisher filter comes first. */
  predicate FiltersDecide(s: Signal, f: Filters, r: Result<Decision>) {
    if f.fisherOn && f.fisher.None? then r.Err?
    else if Chases(s.direction, f) then r == Ok(Suppressed(s.direction, s.rewardRisk, Fisher4HExhaustion))
    else if f.standdownOn && f.funding.None? then r.Err?
    else if Crowded(s.direction, f) then r == Ok(Suppressed(s.direction, s.rewardRisk, ExhaustionStanddown))
    else r == Ok(Accepted(s))
  }

  // ----- the model's searches

  lemma {:induction false} LevelPrices(sr: seq<SRLevel>, kind: LevelKind, p: real)
    ensures p in PricesOfKind(sr, kind) <==> exists k | 0 <= k < |sr| :: sr[k].kind == kind && sr[k].price == p
  {
    if sr != [] {
      var init, last := sr[..|sr| - 1], sr[|sr| - 1];
      LevelPrices(init, kind, p);
      assert sr == init + [last];
      if k :| 0 <= k < |sr| && sr[k].kind == kind && sr[k].price == p {
        assert k < |init| ==> init[k].kind == kind && init[k].price == p;
      }
      if k :| 0 <= k < |init| && init[k].kind == kind && init[k].price == p {
        assert sr[k].kind == kind && sr[k].price == p;
      }
      if last.kind == kind && last.price == p {
        assert sr[|sr| - 1].kind == kind;
      }
    }
  }

  lemma PricesAre(br: BiasResult, kind: LevelKind)
    ensures forall p :: p in PricesOfKind(br.sr, kind) <==> HasLevel(br, kind, p)
  {
    forall p ensures p in PricesOfKind(br.sr, kind) <==> HasLevel(br, kind, p) {
      LevelPrices(br.sr, kind, p);
    }
  }

  lemma FibsAre(br: BiasResult)
    ensures forall p :: p in FibValues(br.fib) <==> IsFib(br, p)
    ensures forall p :: p in Extensions(br.fib) <==> IsExtension(br, p)
  {
  }

  /** The nearest of some prices beyond x. */
  ghost predicate First(d: Direction, ps: seq<real>, x: real, r: real) {
    r in ps && Ahead(d, r, x) && forall p | p in ps && Ahead(d, p, x) :: !Ahead(d, r, p)
  }

  lemma FirstIs(d: Direction, ps: seq<real>, x: real)
    ensures var r := NextBeyond(d, ps, x);
            && (r.Some? ==> First(d, ps, x, r.value))
            && forall p | First(d, ps, x, p) :: r == Some(p)
  {
    LowestAboveIs(ps, x);
    HighestBelowIs(ps, x);
    var r := NextBeyond(d, ps, x);
    forall p | p in ps && Ahead(d, p, x) ensures r.Some? && !Ahead(d, r.value, p) {
      var i :| 0 <= i < |ps| && ps[i] == p;
    }
  }

  lemma AnchorFound(d: Direction, br: BiasResult, entry: real)
    ensures var l := if d == Long then NearestSupport(br, entry) else NearestResistance(br, entry);
            && (l.Some? ==> AnchorIs(d, br, entry, l.value))
            && forall p | AnchorIs(d, br, entry, p) :: l == Some(p)
  {
    var ps := PricesOfKind(br.sr, Behind(d));
    PricesAre(br, Behind(d));
    FirstIs(Opposite(d), ps, entry);
    hide HasLevel, PricesOfKind;
    var l := NextBeyond(Opposite(d), ps, entry);
    forall p ensures AnchorIs(d, br, entry, p) <==> First(Opposite(d), ps, entry, p) {
    }
  }

  lemma NearestFound(d: Direction, br: BiasResult, entry: real)
    ensures var n := NextOpposing(d, br, entry);
            && (n.Some? ==> NearestIs(d, br, entry, n.value))
            && forall p | NearestIs(d, br, entry, p) :: n == Some(p)
  {
    assert OwnKind(d) == InFront(d);
    var ps := FibValues(br.fib) + PricesOfKind(br.sr, InFront(d));
    PricesAre(br, InFront(d));
    FibsAre(br);
    FirstIs(d, ps, entry);
    hide HasLevel, PricesOfKind, FibValues, IsFib;
    forall p ensures NearestIs(d, br, entry, p) <==> First(d, ps, entry, p) {
    }
  }

  lemma ExtensionFound(d: Direction, br: BiasResult, n: real)
    ensures var e := NextBeyond(d, Extensions(br.fib), n);
            && (e.Some? ==> NextExtensionIs(d, br, n, e.value))
            && forall p | NextExtensionIs(d, br, n, p) :: e == Some(p)
  {
    FibsAre(br);
    FirstIs(d, Extensions(br.fib), n);
    hide Extensions, IsExtension;
    forall p ensures NextExtensionIs(d, br, n, p) <==> First(d, Extensions(br.fib), n, p) {
    }
  }

  lemma CapFound(d: Direction, br: BiasResult, n: real, e: real)
    ensures var b := NextBeyond(d, PricesOfKind(br.sr, OwnKind(d)), n);
            && (b.Some? && Ahead(d, e, b.value) ==> CapIs(d, br, n, e, b.value))
            && forall p | CapIs(d, br, n, e, p) :: b == Some(p) && Ahead(d, e, p)
  {
    assert OwnKind(d) == InFront(d);
    var ps := PricesOfKind(br.sr, InFront(d));
    PricesAre(br, InFront(d));
    FirstIs(d, ps, n);
    hide HasLevel, PricesOfKind;
    forall p ensures CapIs(d, br, n, e, p) <==> First(d, ps, n, p) && Ahead(d, e, p) {
    }
  }

  lemma ExtendedFound(d: Direction, br: BiasResult, n: real, t: real)
    ensures ExtendedIs(d, br, n, t) <==> t == Extended(d, br, n)
  {
    hide NextExtensionIs, CapIs, PricesOfKind, Extensions, NextBeyond;
    ExtensionFound(d, br, n);
    var e := NextBeyond(d, Extensions(br.fib), n);
    if e.Some? {
      CapFound(d, br, n, e.value);
      var b := NextBeyond(d, PricesOfKind(br.sr, OwnKind(d)), n);
      if b.Some? && Ahead(d, e.value, b.value) {
        assert CapIs(d, br, n, e.value, b.value);
      } else {
        assert forall cap :: !CapIs(d, br, n, e.value, cap);
      }
    }
  }

  lemma TargetFound(d: Direction, br: BiasResult, entry: real, atr: real, model: TargetModel)
    ensures var t := ResolveTarget(d, entry, br, atr, model);
            && (t.Some? ==> TargetIs(d, br, entry, atr, model, t.value))
            && forall p | TargetIs(d, br, entry, atr, model, p) :: t == Some(p)
  {
    hide NearestIs, ExtendedIs, NextOpposing, Extended;
    NearestFound(d, br, entry);
    var n := NextOpposing(d, br, entry);
    if n.Some? {
      forall p ensures ExtendedIs(d, br, n.value, p) <==> p == Extended(d, br, n.value) {
        ExtendedFound(d, br, n.value, p);
      }
    }
  }

  lemma StopFound(d: Direction, level: real, entry: real, atr: real, model: StopModel)
    ensures var structural := if d == Long then level * (1.0 - STRUCTURAL_STOP_BUFFER)
                              else level * (1.0 + STRUCTURAL_STOP_BUFFER);
            StopIs(d, level, entry, atr, model, ResolveStop(d, entry, structural, atr, model))
  {
    assert 1.0 - STRUCTURAL_STOP_BUFFER == 0.9985 && 1.0 + STRUCTURAL_STOP_BUFFER == 1.0015;
  }

  lemma {:induction false} GateDecides(d: Direction, entry: real, stop: real, t: real, f: Filters)
    ensures Decides(d, entry, stop, t, f, Gate(d, entry, stop, t, f))
  {
    var risk := if entry >= stop then entry - stop else stop - entry;
    var reward := if t >= entry then t - entry else entry - t;
    assert Abs(entry - stop) == risk && Abs(t - entry) == reward;
    if risk != 0.0 {
      var rr := reward / risk;
      assert rr * risk == reward;
      RatioBelow(rr, risk, reward);
      FilteredIs(Signal(d, entry, stop, t, rr), f);
      hide Filtered, FiltersDecide;
    }
  }

  lemma FilteredIs(s: Signal, f: Filters)
    ensures FiltersDecide(s, f, Filtered(s, f))
  {
  }

  lemma RatioBelow(rr: real, risk: real, reward: real)
    requires risk > 0.0 && rr * risk == reward
    ensures rr < 2.0 <==> reward < 2.0 * risk
  {
    if rr < 2.0 {
      ProductPositive(2.0 - rr, risk);
    } else if rr > 2.0 {
      ProductPositive(rr - 2.0, risk);
    }
  }

  // ----- the law

  /** Without a common direction, a level behind the close or a target in front of it there is no
      signal; with them the decision is that of the resulting stop and target, the entry being the
      close of the last bar. */
  lemma DecisionIs(d: Option<Direction>, br: BiasResult, trig: seq<Candle>, stops: StopModel, targets: TargetModel,
                   f: Filters)
    requires trig != []
    ensures var r := EvaluateSignal(d, br, trig, stops, targets, f);
            var entry, atr := trig[|trig| - 1].close, LastAtr(trig);
            && (d.None? ==> r == Ok(NoSignal))
            && (d.Some? ==>
                  || (r == Ok(NoSignal)
                      && ((forall level :: !AnchorIs(d.value, br, entry, level))
                          || forall t :: !TargetIs(d.value, br, entry, atr, targets, t)))
                  || exists level, stop, t ::
                       && AnchorIs(d.value, br, entry, level) && TargetIs(d.value, br, entry, atr, targets, t)
                       && StopIs(d.value, level, entry, atr, stops, stop) && Decides(d.value, entry, stop, t, f, r))
  {
    hide LastAtr, AnchorIs, TargetIs, StopIs, Decides, ResolveStop, ResolveTarget, Gate, NearestSupport,
         NearestResistance;
    if d.Some? {
      var entry, atr := trig[|trig| - 1].close, LastAtr(trig);
      AnchorFound(d.value, br, entry);
      TargetFound(d.value, br, entry, atr, targets);
      var l := if d.value == Long then NearestSupport(br, entry) else NearestResistance(br, entry);
      var t := ResolveTarget(d.value, entry, br, atr, targets);
      if l.Some? && t.Some? {
        StopFound(d.value, l.value, entry, atr, stops);
        GateDecides(d.value, entry, ResolveStop(d.value, entry, StructuralLevel(d.value, br, entry).value, atr, stops),
                    t.value, f);
      }
    }
  }
}
