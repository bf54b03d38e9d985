/** risk/challenge.py, risk/sizing.py and risk/gate.py: the floors, the size and the gate's verdict as
    numbers. */
module SizingLaw {
  import opened Market
  import opened Reals
  import opened Sizing
  import opened RiskGate

  // ----- the floors

  /** The balance the drawdown is counted from: the initial one, and for a trailing tier the
      high-water mark if that is higher. */
  predicate CountedFrom(cfg: ChallengeConfig, hwm: Option<real>, base: real) {
    && base >= cfg.initialBalance
    && (cfg.drawdown == TrailingTier && hwm.Some? ==> base >= hwm.value)
    && (base == cfg.initialBalance || (cfg.drawdown == TrailingTier && hwm == Some(base)))
  }

  /** The floors, in hundredths: what is left of the day's start after the daily loss, a percentage of
      the initial balance, and what is left of the counted balance after the drawdown; the binding one
      is the higher. */
  predicate FloorIs(cfg: ChallengeConfig, dayStart: real, base: real, floor: real) {
    var daily := 100.0 * dayStart - cfg.initialBalance * cfg.dailyLossPct;
    var drawdown := base * (100.0 - cfg.maxDrawdownPct);
    100.0 * floor >= daily && 100.0 * floor >= drawdown && (100.0 * floor == daily || 100.0 * floor == drawdown)
  }

  lemma BindingFloorIs(cfg: ChallengeConfig, dayStart: real, hwm: Option<real>) returns (base: real)
    ensures CountedFrom(cfg, hwm, base) && FloorIs(cfg, dayStart, base, BindingFloor(cfg, dayStart, hwm))
    ensures 100.0 * DdFloor(cfg, hwm) == base * (100.0 - cfg.maxDrawdownPct)
    ensures forall other | CountedFrom(cfg, hwm, other) :: other == base
  {
    base := DdBase(cfg, hwm);
    KeptShare(base, cfg.maxDrawdownPct);
  }

  lemma KeptShare(base: real, pct: real)
    ensures 100.0 * (base * (1.0 - pct / 100.0)) == base * (100.0 - pct)
  {
  }

  // ----- the size

  /** The factor: nothing at or below the floor; else the power of the cushion's share of the peak's
      cushion, of one at most. */
  ghost predicate Attenuates(pow: (real, real) -> real, equity: real, peak: real, alpha: real, floor: real, att: real) {
    if equity <= floor || peak <= floor then att == 0.0
    else if equity >= peak then att == pow(1.0, alpha)
    else exists share :: share * (peak - floor) == equity - floor && att == pow(share, alpha)
  }

  lemma AttenuationIs(pow: (real, real) -> real, equity: real, peak: real, alpha: real, floor: real)
    requires alpha >= 1.0
    ensures Attenuation(pow, equity, peak, alpha, floor).Ok?
    ensures Attenuates(pow, equity, peak, alpha, floor, Attenuation(pow, equity, peak, alpha, floor).value)
  {
    if floor < equity && floor < peak {
      var share := Ratio(equity - floor, peak - floor);
      RatioTimes(equity - floor, peak - floor);
      RatioLess(equity - floor, peak - floor, peak - floor);
      RatioLess(0.0, equity - floor, peak - floor);
      assert Ratio(peak - floor, peak - floor) == 1.0 && Ratio(0.0, peak - floor) == 0.0;
      assert Max(0.0, Min(share, 1.0)) == if equity >= peak then 1.0 else share;
    }
  }

  /** One followed by this many zeros. */
  lemma {:induction false} TenTo(n: nat)
    ensures Pow10(n) == Power(10.0, n)
  {
    if n > 0 {
      TenTo(n - 1);
    }
  }

  /** A refused size has one of five causes; otherwise the risk is that part of the equity, times the
      factor, and the quantity the largest on the venue's grid that loses no more at the stop. */
  lemma SizeIs(pow: (real, real) -> real, equity: real, peak: real, o: Order, floor: real)
    requires IsPow(pow)
    ensures var r := SizeAttenuated(pow, equity, peak, o, floor);
            var grid := Power(10.0, o.decimals);
            && (r.Err? <==> equity <= 0.0 || o.riskPct < 0.0025 || o.riskPct > 0.01 || o.entry == o.stop
                            || o.alpha < 1.0)
            && (r.Ok? ==>
                  && Attenuates(pow, equity, peak, o.alpha, floor, r.value.attenuation)
                  && r.value.riskUsd == equity * o.riskPct * r.value.attenuation
                  && LargestWithin(r.value.quantity, grid, if o.entry > o.stop then o.entry - o.stop
                                                           else o.stop - o.entry, r.value.riskUsd))
  {
    hide IsPow, Attenuation, Attenuates, Truncated, Ratio, Power, LargestWithin;
    if o.alpha >= 1.0 {
      AttenuationIs(pow, equity, peak, o.alpha, floor);
      AttenuationBounds(pow, equity, peak, o.alpha, floor);
      var perUnit := if o.entry > o.stop then o.entry - o.stop else o.stop - o.entry;
      assert Abs(o.entry - o.stop) == perUnit;
      if equity > 0.0 && 0.0025 <= o.riskPct && perUnit > 0.0 {
        var risk := RiskUsd(equity, o.riskPct, Attenuation(pow, equity, peak, o.alpha, floor).value);
        Budget(equity, o.riskPct, Attenuation(pow, equity, peak, o.alpha, floor).value);
        TruncatedIs(risk, perUnit, o.decimals);
      }
    } else {
      AlphaChecked(pow, equity, peak, o.alpha, floor);
    }
  }

  lemma Budget(equity: real, pct: real, att: real)
    requires equity > 0.0 && pct >= 0.0 && att >= 0.0
    ensures RiskUsd(equity, pct, att) == equity * pct * att >= 0.0
  {
    MulNonNegative(equity, pct);
    MulNonNegative(equity * pct, att);
  }

  predicate Whole(x: real) {
    x == x.Floor as real
  }

  /** On the grid, losing no more than the budget; one step more would lose more. */
  ghost predicate LargestWithin(q: real, grid: real, perUnit: real, budget: real) {
    && q >= 0.0 && Whole(q * grid)
    && q * perUnit <= budget
    && (q * grid + 1.0) * perUnit > budget * grid
  }

  lemma TruncatedIs(budget: real, perUnit: real, decimals: nat)
    requires budget >= 0.0 && perUnit > 0.0
    ensures Ratio(budget, perUnit) >= 0.0
    ensures LargestWithin(Truncated(Ratio(budget, perUnit), decimals), Power(10.0, decimals), perUnit, budget)
  {
    hide Ratio, Truncated, Power, Pow10;
    var raw := Ratio(budget, perUnit);
    RatioTimes(budget, perUnit);
    NotNegative(raw, perUnit);
    TruncationBounds(raw, decimals);
    TenTo(decimals);
    WholeSteps(Steps(raw, decimals));
    Fits(raw, Truncated(raw, decimals), Pow10(decimals), perUnit, budget);
  }

  lemma NotNegative(x: real, w: real)
    requires w > 0.0 && x * w >= 0.0
    ensures x >= 0.0
  {
    DivideOrder(0.0, x, w);
  }

  lemma WholeSteps(x: real)
    ensures Whole(Floored(x))
  {
  }

  lemma Fits(raw: real, q: real, grid: real, perUnit: real, budget: real)
    requires grid >= 1.0 && perUnit > 0.0 && raw * perUnit == budget && q <= raw && raw * grid - q * grid < 1.0
    ensures q * perUnit <= budget && (q * grid + 1.0) * perUnit > budget * grid
  {
    Within(q, raw, perUnit, budget);
    Regrouped(raw, grid, perUnit, budget);
    Exceeds(q * grid, raw * grid, perUnit, budget * grid);
  }

  lemma Within(x: real, y: real, w: real, z: real)
    requires y * w == z && x <= y && w > 0.0
    ensures x * w <= z
  {
    MulNonNegative(y - x, w);
  }

  lemma Exceeds(x: real, y: real, w: real, z: real)
    requires y * w == z && x + 1.0 > y && w > 0.0
    ensures (x + 1.0) * w > z
  {
    ProductPositive(x + 1.0 - y, w);
    assert (x + 1.0 - y) * w == (x + 1.0) * w - y * w;
  }

  lemma Regrouped(x: real, y: real, w: real, z: real)
    requires x * w == z
    ensures (x * y) * w == z * y
  {
  }

  // ----- the verdict

  /** The gate approves exactly when the engine is active, the reward at least twice the risk, a place
      free, the size accepted and at least a thousandth, and the equity left by a fill at the stop
      above the binding floor by more than the buffer. */
  lemma ApprovesIff(pow: (real, real) -> real, cfg: ChallengeConfig, limits: GateLimits, active: bool,
                    rewardRisk: real, openCount: int, acct: Account, o: Order, base: real, floor: real)
    requires CountedFrom(cfg, acct.hwm, base) && FloorIs(cfg, acct.dayStart, base, floor)
    ensures var s := SizeAttenuated(pow, acct.equity, acct.peak, o, base * (100.0 - cfg.maxDrawdownPct) / 100.0);
            var perUnit := if o.entry > o.stop then o.entry - o.stop else o.stop - o.entry;
            Approves(pow, cfg, limits, active, rewardRisk, openCount, acct, o)
            <==> && active && rewardRisk >= 2.0 && openCount < limits.maxConcurrent
                 && s.Ok? && s.value.quantity >= 0.001
                 && acct.equity - perUnit * s.value.quantity > floor + limits.softBuffer
  {
    var b := BindingFloorIs(cfg, acct.dayStart, acct.hwm);
    hide SizeAttenuated, BindingFloor, DdFloor, CountedFrom;
    assert floor == BindingFloor(cfg, acct.dayStart, acct.hwm);
    assert DdFloor(cfg, acct.hwm) == base * (100.0 - cfg.maxDrawdownPct) / 100.0;
    var perUnit := if o.entry > o.stop then o.entry - o.stop else o.stop - o.entry;
    assert Abs(o.entry - o.stop) == perUnit;
  }
}
