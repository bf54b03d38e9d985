/** risk/challenge.py, risk/sizing.py and risk/gate.py: account floors, attenuated sizing and the
    pre-trade gate. The power function is a parameter. */
module Sizing {
  import opened Market
  import opened Reals

  const MIN_RISK_PCT: real := 0.0025
  const MAX_RISK_PCT: real := 0.01
  const VENUE_MIN_QTY_BTC: real := 0.001

  // ----- challenge tiers

  datatype DrawdownType = StaticTier | TrailingTier

  datatype ChallengeConfig = ChallengeConfig(drawdown: DrawdownType, maxDrawdownPct: real, dailyLossPct: real,
                                             initialBalance: real)

  predicate ValidConfig(cfg: ChallengeConfig) {
    0.0 < cfg.maxDrawdownPct <= 20.0 && 0.0 < cfg.dailyLossPct <= 10.0 && cfg.initialBalance > 0.0
  }

  function DdBase(cfg: ChallengeConfig, hwm: Option<real>): real {
    if cfg.drawdown == TrailingTier && hwm.Some? then Max(hwm.value, cfg.initialBalance) else cfg.initialBalance
  }

  function DdFloor(cfg: ChallengeConfig, hwm: Option<real>): real {
    DdBase(cfg, hwm) * (1.0 - cfg.maxDrawdownPct / 100.0)
  }

  function DailyFloor(cfg: ChallengeConfig, dayStart: real): real {
    dayStart - cfg.initialBalance * cfg.dailyLossPct / 100.0
  }

  function BindingFloor(cfg: ChallengeConfig, dayStart: real, hwm: Option<real>): real {
    Max(DailyFloor(cfg, dayStart), DdFloor(cfg, hwm))
  }

  // ----- sizing

  /** What is assumed of the power function. */
  ghost predicate IsPow(pow: (real, real) -> real) {
    && (forall b, a | 0.0 <= b <= 1.0 && a >= 1.0 :: 0.0 <= pow(b, a) <= b)
    && (forall a | a >= 1.0 :: pow(1.0, a) == 1.0)
  }

  function Pow10(n: nat): (r: real)
    ensures r >= 1.0
  {
    if n == 0 then 1.0 else 10.0 * Pow10(n - 1)
  }

  /** math.floor */
  function Floored(x: real): (n: real)
    ensures n <= x < n + 1.0
  {
    x.Floor as real
  }

  /** A quantity in venue steps. */
  function Steps(q: real, decimals: nat): real {
    q * Pow10(decimals)
  }

  function Truncated(q: real, decimals: nat): real {
    Ratio(Floored(Steps(q, decimals)), Pow10(decimals))
  }

  function TruncateToStep(q: real, decimals: nat): Result<real> {
    if q < 0.0 then Err("quantity must be non-negative") else Ok(Truncated(q, decimals))
  }

  function Attenuation(pow: (real, real) -> real, equity: real, peak: real, alpha: real, floor: real): Result<real> {
    if alpha < 1.0 then Err("alpha must be >= 1.0 (attenuation must not amplify risk)")
    else if equity <= floor || peak <= floor then Ok(0.0)
    else Ok(pow(Max(0.0, Min(Ratio(equity - floor, peak - floor), 1.0)), alpha))
  }

  datatype Sized = Sized(quantity: real, riskUsd: real, attenuation: real)

  /** What a sizing call takes besides the account's equity, peak and floor. */
  datatype Order = Order(entry: real, stop: real, riskPct: real, alpha: real, decimals: nat)

  function RiskUsd(equity: real, riskPct: real, att: real): real {
    equity * riskPct * att
  }

  function SizeAttenuated(pow: (real, real) -> real, equity: real, peak: real, o: Order, floor: real): Result<Sized> {
    if equity <= 0.0 then Err("equity must be positive")
    else if !(MIN_RISK_PCT <= o.riskPct <= MAX_RISK_PCT) then Err("risk_pct outside allowed band")
    else
      var perUnit := Abs(o.entry - o.stop);
      if perUnit == 0.0 then Err("entry_price and stop_price must differ") else
      match Attenuation(pow, equity, peak, o.alpha, floor)
      case Err(e) => Err(e)
      case Ok(att) =>
        var riskUsd := RiskUsd(equity, o.riskPct, att);
        match TruncateToStep(Ratio(riskUsd, perUnit), o.decimals)
        case Err(e) => Err(e)
        case Ok(q) => Ok(Sized(q, riskUsd, att))
  }

  // ----- truncation

  /** Never up, by less than one step, onto the venue's grid. */
  lemma TruncationBounds(q: real, decimals: nat)
    requires q >= 0.0
    ensures 0.0 <= Truncated(q, decimals) <= q
    ensures Steps(q, decimals) - Steps(Truncated(q, decimals), decimals) < 1.0
    ensures Steps(Truncated(q, decimals), decimals) == Floored(Steps(q, decimals))
  {
    hide Ratio, Pow10, Floored, Steps;
    StepsNonNegative(q, decimals);
    FlooredNonNegative(Steps(q, decimals));
    StepsOfRatio(Floored(Steps(q, decimals)), decimals);
    StepsOrder(Truncated(q, decimals), q, decimals);
    NoSteps(decimals);
    StepsOrder(0.0, Truncated(q, decimals), decimals);
  }

  lemma StepsNonNegative(q: real, decimals: nat)
    requires q >= 0.0
    ensures Steps(q, decimals) >= 0.0
  {
    MulNonNegative(q, Pow10(decimals));
  }

  lemma StepsOfRatio(n: real, decimals: nat)
    ensures Steps(Ratio(n, Pow10(decimals)), decimals) == n
  {
    hide Pow10;
    RatioTimes(n, Pow10(decimals));
  }

  lemma StepsOrder(x: real, y: real, decimals: nat)
    requires Steps(x, decimals) <= Steps(y, decimals)
    ensures x <= y
  {
    hide Pow10;
    DivideOrder(x, y, Pow10(decimals));
  }

  lemma NoSteps(decimals: nat)
    ensures Steps(0.0, decimals) == 0.0
  {
  }

  lemma FlooredNonNegative(x: real)
    requires x >= 0.0
    ensures Floored(x) >= 0.0
  {
  }

  lemma MulNonNegative(a: real, b: real)
    requires a >= 0.0 && b >= 0.0
    ensures a * b >= 0.0
  {
  }

  /** Truncating again changes nothing. */
  lemma TruncationIdempotent(q: real, decimals: nat)
    requires q >= 0.0
    ensures Truncated(Truncated(q, decimals), decimals) == Truncated(q, decimals)
  {
    hide Ratio, Pow10, Floored, Steps;
    TruncationBounds(q, decimals);
    FlooredTwice(Steps(q, decimals));
  }

  lemma FlooredTwice(x: real)
    ensures Floored(Floored(x)) == Floored(x)
  {
  }

  // ----- attenuation

  /** A factor in [0, 1], zero at or below the floor; while the peak is not stale it takes no more
      than the cushion's share of the peak's cushion. */
  lemma AttenuationBounds(pow: (real, real) -> real, equity: real, peak: real, alpha: real, floor: real)
    requires IsPow(pow) && alpha >= 1.0
    ensures var r := Attenuation(pow, equity, peak, alpha, floor);
            && r.Ok? && 0.0 <= r.value <= 1.0
            && (equity <= floor || peak <= floor ==> r.value == 0.0)
            && (floor < equity && floor < peak ==> r.value * (peak - floor) <= equity - floor)
            && (floor < peak <= equity ==> r.value == 1.0)
  {
    if floor < equity && floor < peak {
      var base, att := Ratio(equity - floor, peak - floor), Attenuation(pow, equity, peak, alpha, floor).value;
      RatioTimes(equity - floor, peak - floor);
      RatioLess(0.0, equity - floor, peak - floor);
      RatioLess(equity - floor, peak - floor, peak - floor);
      assert Ratio(peak - floor, peak - floor) == 1.0;
      assert Ratio(0.0, peak - floor) == 0.0;
      var clamped := Min(base, 1.0);
      assert 0.0 <= att <= clamped <= base;
      MulNonNegative(base - att, peak - floor);
      assert (base - att) * (peak - floor) == (equity - floor) - att * (peak - floor);
    }
  }

  /** The loss at the stop never exceeds the risk budget. */
  lemma StopLossWithinBudget(pow: (real, real) -> real, equity: real, peak: real, o: Order, floor: real)
    requires IsPow(pow)
    ensures var r := SizeAttenuated(pow, equity, peak, o, floor);
            r.Ok? ==>
              && o.alpha >= 1.0 && equity > 0.0
              && Attenuation(pow, equity, peak, o.alpha, floor) == Ok(r.value.attenuation)
              && r.value.riskUsd == equity * o.riskPct * r.value.attenuation
              && r.value.quantity >= 0.0
              && r.value.quantity * Abs(o.entry - o.stop) <= r.value.riskUsd
  {
    hide IsPow, Attenuation, Truncated, Ratio;
    var r := SizeAttenuated(pow, equity, peak, o, floor);
    if r.Ok? {
      AlphaChecked(pow, equity, peak, o.alpha, floor);
      AttenuationBounds(pow, equity, peak, o.alpha, floor);
      var perUnit := Abs(o.entry - o.stop);
      var raw := Ratio(r.value.riskUsd, perUnit);
      RatioTimes(r.value.riskUsd, perUnit);
      TruncationBounds(raw, o.decimals);
      MulNonNegative(raw - r.value.quantity, perUnit);
      assert (raw - r.value.quantity) * perUnit == raw * perUnit - r.value.quantity * perUnit;
    }
  }

  lemma AlphaChecked(pow: (real, real) -> real, equity: real, peak: real, alpha: real, floor: real)
    ensures Attenuation(pow, equity, peak, alpha, floor).Ok? <==> alpha >= 1.0
  {
  }

  // ----- runs of stop-outs

  /** The cushion that one worst-case loss leaves of a cushion of one. */
  function Retained(peak: real, floor: real, riskPct: real): real {
    1.0 - Ratio(riskPct * peak, peak - floor)
  }

  /** One stop-out: sized on current equity and filled at the stop; a refused size loses nothing. */
  function AfterStop(pow: (real, real) -> real, equity: real, peak: real, o: Order, floor: real): real {
    match SizeAttenuated(pow, equity, peak, o, floor)
    case Err(_) => equity
    case Ok(s) => equity - s.quantity * Abs(o.entry - o.stop)
  }

  function AfterStops(pow: (real, real) -> real, equity: real, peak: real, os: seq<Order>, floor: real): real {
    if os == [] then equity
    else AfterStop(pow, AfterStops(pow, equity, peak, os[..|os| - 1], floor), peak, os[|os| - 1], floor)
  }

  function Power(x: real, n: nat): real {
    if n == 0 then 1.0 else Power(x, n - 1) * x
  }

  lemma RetainedPositive(peak: real, floor: real, r: real)
    requires r >= 0.0 && peak > 0.0 && floor < peak * (1.0 - r)
    ensures floor < peak && 0.0 < Retained(peak, floor, r) <= 1.0
  {
    var loss := r * peak;
    MulNonNegative(r, peak);
    assert peak * (1.0 - r) == peak - loss;
    RatioLess(loss, peak - floor, peak - floor);
    RatioLess(loss, 0.0, peak - floor);
    assert Ratio(peak - floor, peak - floor) == 1.0;
    assert Ratio(0.0, peak - floor) == 0.0;
  }

  /** One stop-out from below the peak keeps at least the retained share of the cushion. */
  lemma OneStopOut(pow: (real, real) -> real, equity: real, peak: real, o: Order, floor: real, r: real)
    requires IsPow(pow) && o.riskPct <= r && floor < peak * (1.0 - r)
    requires floor < equity <= peak && 0.0 < peak && 0.0 <= r
    ensures AfterStop(pow, equity, peak, o, floor) - floor >= (equity - floor) * Retained(peak, floor, r)
    ensures floor < AfterStop(pow, equity, peak, o, floor) <= equity
  {
    hide IsPow, SizeAttenuated, Attenuation, Ratio, Retained;
    RetainedPositive(peak, floor, r);
    var k, loss := Retained(peak, floor, r), equity - AfterStop(pow, equity, peak, o, floor);
    var s := SizeAttenuated(pow, equity, peak, o, floor);
    if s.Ok? {
      StopLossWithinBudget(pow, equity, peak, o, floor);
      AttenuationBounds(pow, equity, peak, o.alpha, floor);
      BudgetShare(equity, peak, floor, o.riskPct, r, s.value.attenuation, s.value.riskUsd);
      MulNonNegative(s.value.quantity, Abs(o.entry - o.stop));
    } else {
      MulNonNegative(equity - floor, 1.0 - k);
    }
    CushionKept(equity - floor, loss, k);
  }

  lemma CushionKept(cushion: real, loss: real, k: real)
    requires cushion > 0.0 && k > 0.0 && 0.0 <= loss <= cushion * (1.0 - k)
    ensures cushion - loss >= cushion * k > 0.0
  {
    ProductPositive(cushion, k);
  }

  lemma BudgetShare(equity: real, peak: real, floor: real, riskPct: real, r: real, att: real, riskUsd: real)
    requires 0.0 < equity <= peak && floor < equity && riskPct <= r && 0.0 <= r && 0.0 <= att
    requires att * (peak - floor) <= equity - floor && riskUsd == equity * riskPct * att
    ensures riskUsd <= (equity - floor) * (1.0 - Retained(peak, floor, r))
  {
    hide Ratio;
    var share, budget := Ratio(r * peak, peak - floor), (r * peak) * att;
    RatioTimes(r * peak, peak - floor);
    assert riskUsd <= budget by {
      MulNonNegative(equity, r - riskPct);
      MulNonNegative(peak - equity, r);
      MulNonNegative(r * peak - equity * riskPct, att);
    }
    MulNonNegative(r, peak);
    MulNonNegative(r * peak, (equity - floor) - att * (peak - floor));
    var target := (equity - floor) * share;
    assert target * (peak - floor) == (equity - floor) * (r * peak);
    assert budget * (peak - floor) <= target * (peak - floor);
    DivideOrder(budget, target, peak - floor);
  }

  ghost predicate RiskAtMost(os: seq<Order>, r: real) {
    forall i | 0 <= i < |os| :: os[i].riskPct <= r
  }

  /** Any number of consecutive worst-case stop-outs, each sized on what is left, keeps equity
      strictly above the floor: after n of them at least the n-th power of the retained share of
      the cushion remains. */
  lemma {:induction false} StopOutsKeepCushion(pow: (real, real) -> real, equity: real, peak: real, os: seq<Order>,
                                               floor: real, r: real)
    requires IsPow(pow) && RiskAtMost(os, r) && floor < peak * (1.0 - r)
    requires floor < equity <= peak && 0.0 < peak && 0.0 <= r
    ensures floor < AfterStops(pow, equity, peak, os, floor) <= equity
    ensures AfterStops(pow, equity, peak, os, floor) - floor
            >= (equity - floor) * Power(Retained(peak, floor, r), |os|)
  {
    hide IsPow, AfterStop, Retained, Power;
    if os != [] {
      var n := |os| - 1;
      StopOutsKeepCushion(pow, equity, peak, os[..n], floor, r);
      var before, k := AfterStops(pow, equity, peak, os[..n], floor), Retained(peak, floor, r);
      OneStopOut(pow, before, peak, os[n], floor, r);
      RetainedPositive(peak, floor, r);
      Compound(before - floor, equity - floor, Power(k, n), k);
      OneLossMore(equity - floor, k, n);
    } else {
      NothingLost(equity - floor, Retained(peak, floor, r));
    }
  }

  lemma OneLossMore(cushion: real, k: real, n: nat)
    ensures cushion * Power(k, n + 1) == cushion * (Power(k, n) * k)
  {
    assert Power(k, n + 1) == Power(k, n) * k;
  }

  lemma NothingLost(cushion: real, k: real)
    ensures cushion * Power(k, 0) == cushion
  {
  }

  lemma Compound(before: real, start: real, power: real, k: real)
    requires k > 0.0 && before >= start * power
    ensures before * k >= start * (power * k)
  {
    MulNonNegative(before - start * power, k);
    assert (start * power) * k == start * (power * k);
  }

  /** The hypothesis is exact for the budget: at the peak the full budget leaves the floor
      uncrossed precisely when floor < peak * (1 - riskPct). */
  lemma BudgetAtPeak(pow: (real, real) -> real, peak: real, o: Order, floor: real)
    requires IsPow(pow) && SizeAttenuated(pow, peak, peak, o, floor).Ok? && floor < peak
    ensures peak - SizeAttenuated(pow, peak, peak, o, floor).value.riskUsd > floor <==> floor < peak * (1.0 - o.riskPct)
  {
    hide IsPow, SizeAttenuated, Attenuation;
    StopLossWithinBudget(pow, peak, peak, o, floor);
    AttenuationBounds(pow, peak, peak, o.alpha, floor);
  }

  /** Both tier types satisfy the hypothesis when the drawdown percentage exceeds the risk
      percentage and the peak is at least the high-water mark and the initial balance. */
  lemma TierSatisfiesHypothesis(cfg: ChallengeConfig, hwm: Option<real>, peak: real, r: real)
    requires ValidConfig(cfg) && r * 100.0 < cfg.maxDrawdownPct
    requires peak >= cfg.initialBalance && (hwm.Some? ==> peak >= hwm.value)
    ensures DdFloor(cfg, hwm) < peak * (1.0 - r)
  {
    var base, keep := DdBase(cfg, hwm), 1.0 - cfg.maxDrawdownPct / 100.0;
    MulNonNegative(peak - base, keep);
    assert base * keep <= peak * keep;
    ProductPositive(peak, (1.0 - r) - keep);
    assert peak * ((1.0 - r) - keep) == peak * (1.0 - r) - peak * keep;
  }

  /** For a valid tier with a drawdown limit above the largest allowed risk (1%), no run of
      consecutive stop-outs sized against its floor reaches that floor. */
  lemma TierSurvivesEveryRun(pow: (real, real) -> real, cfg: ChallengeConfig, hwm: Option<real>, equity: real,
                             peak: real, os: seq<Order>)
    requires IsPow(pow) && ValidConfig(cfg) && cfg.maxDrawdownPct > 1.0
    requires peak >= cfg.initialBalance && (hwm.Some? ==> peak >= hwm.value)
    requires DdFloor(cfg, hwm) < equity <= peak
    ensures AfterStops(pow, equity, peak, os, DdFloor(cfg, hwm)) > DdFloor(cfg, hwm)
  {
    hide IsPow, DdFloor, Retained;
    TierSatisfiesHypothesis(cfg, hwm, peak, MAX_RISK_PCT);
    var capped := Capped(os);
    SameStops(pow, equity, peak, os, DdFloor(cfg, hwm));
    CappedAtMost(os);
    StopOutsKeepCushion(pow, equity, peak, capped, DdFloor(cfg, hwm), MAX_RISK_PCT);
  }

  /** An order above the allowed band is refused, as it would be below it. */
  function Capped(os: seq<Order>): (r: seq<Order>)
    ensures |r| == |os|
  {
    if os == [] then [] else
    var o := os[|os| - 1];
    Capped(os[..|os| - 1]) + [if o.riskPct > MAX_RISK_PCT then o.(riskPct := 0.0) else o]
  }

  lemma {:induction false} CappedAtMost(os: seq<Order>)
    ensures RiskAtMost(Capped(os), MAX_RISK_PCT)
  {
    if os != [] {
      CappedAtMost(os[..|os| - 1]);
    }
  }

  lemma {:induction false} SameStops(pow: (real, real) -> real, equity: real, peak: real, os: seq<Order>, floor: real)
    ensures AfterStops(pow, equity, peak, Capped(os), floor) == AfterStops(pow, equity, peak, os, floor)
  {
    if os != [] {
      var n := |os| - 1;
      SameStops(pow, equity, peak, os[..n], floor);
      var c := Capped(os);
      assert c[..n] == Capped(os[..n]);
      if os[n].riskPct > MAX_RISK_PCT {
        RefusedAlike(pow, AfterStops(pow, equity, peak, os[..n], floor), peak, os[n], floor);
      }
    }
  }

  lemma RefusedAlike(pow: (real, real) -> real, equity: real, peak: real, o: Order, floor: real)
    requires o.riskPct > MAX_RISK_PCT
    ensures AfterStop(pow, equity, peak, o.(riskPct := 0.0), floor) == AfterStop(pow, equity, peak, o, floor)
  {
  }
}
