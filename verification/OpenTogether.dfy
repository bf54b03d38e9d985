/** risk/gate.py with several positions open at once. The gate looks at each order by itself, so
    what it guarantees of a day depends on how many positions may be open together. */
module OpenTogether {
  import opened Market
  import opened Reals
  import opened Signals
  import opened Sizing
  import opened RiskGate

  /** What the gate's caller reads from the configuration for every signal. */
  datatype RiskParams = RiskParams(riskPct: real, alpha: real, decimals: nat)

  /** The account's floors do not move during the day; its equity does. */
  datatype Setting = Setting(pow: (real, real) -> real, cfg: ChallengeConfig, limits: GateLimits, acct: Account)

  function AtEquity(s: Setting, equity: real): Account {
    s.acct.(equity := equity)
  }

  function FloorOf(s: Setting): real {
    BindingFloor(s.cfg, s.acct.dayStart, s.acct.hwm)
  }

  function OrderFor(p: RiskParams, entry: real, stop: real): Order {
    Order(entry, stop, p.riskPct, p.alpha, p.decimals)
  }

  /** What the order loses if it is filled at its stop; a refused size loses nothing. */
  function LossAtStop(s: Setting, equity: real, o: Order): real {
    match SizeAtFloor(s.pow, s.cfg, AtEquity(s, equity), o)
    case Err(_) => 0.0
    case Ok(sized) => Times(sized.quantity, Abs(o.entry - o.stop))
  }

  function Total(losses: seq<real>): real {
    if losses == [] then 0.0 else Total(losses[..|losses| - 1]) + losses[|losses| - 1]
  }

  // ----- a day at the desk

  /** Equity counts closed positions; `open` holds what each open one loses at its stop. */
  datatype Desk = Desk(equity: real, open: seq<real>, approvals: nat)

  datatype DeskEvent =
    | Submit(active: bool, signal: Signal, params: RiskParams)
    | StopOut(k: nat)

  function Next(s: Setting, d: Desk, e: DeskEvent): Desk {
    match e
    case Submit(active, signal, params) =>
      var o := OrderFor(params, signal.entry, signal.stop);
      if Approves(s.pow, s.cfg, s.limits, active, signal.rewardRisk, |d.open|, AtEquity(s, d.equity), o)
      then Desk(d.equity, d.open + [LossAtStop(s, d.equity, o)], d.approvals + 1)
      else d
    case StopOut(k) =>
      if k < |d.open| then Desk(d.equity - d.open[k], d.open[..k] + d.open[k + 1..], d.approvals) else d
  }

  function After(s: Setting, es: seq<DeskEvent>): Desk {
    if es == [] then Desk(s.acct.equity, [], 0) else Next(s, After(s, es[..|es| - 1]), es[|es| - 1])
  }

  predicate StopsAtLeast(es: seq<DeskEvent>, distance: real) {
    forall i | 0 <= i < |es| && es[i].Submit? :: Abs(es[i].signal.entry - es[i].signal.stop) >= distance
  }

  /** What a cleared order means in money. */
  lemma ClearedLoss(s: Setting, equity: real, o: Order, distance: real)
    requires Cleared(s.pow, s.cfg, AtEquity(s, equity), o, s.limits.softBuffer)
    requires Abs(o.entry - o.stop) >= distance > 0.0
    ensures LossAtStop(s, equity, o) >= VENUE_MIN_QTY_BTC * distance
    ensures equity - LossAtStop(s, equity, o) > FloorOf(s) + s.limits.softBuffer
  {
    hide SizeAtFloor, BindingFloor, Abs;
    var q, d := SizeAtFloor(s.pow, s.cfg, AtEquity(s, equity), o).value.quantity, Abs(o.entry - o.stop);
    MulNonNegative(q - VENUE_MIN_QTY_BTC, d);
    MulNonNegative(VENUE_MIN_QTY_BTC, d - distance);
    assert (q - VENUE_MIN_QTY_BTC) * d == q * d - VENUE_MIN_QTY_BTC * d;
  }

  /** The desk with at most one position open, in terms of the day's approvals so far. */
  predicate OneAtATime(s: Setting, d: Desk, distance: real) {
    && |d.open| <= 1
    && (d.approvals == 0 ==> d.open == [] && d.equity == s.acct.equity)
    && (d.approvals > 0 ==> d.equity - Total(d.open) > FloorOf(s) + s.limits.softBuffer)
    && Total(d.open) >= 0.0
    && d.equity - Total(d.open) <= s.acct.equity - d.approvals as real * (VENUE_MIN_QTY_BTC * distance)
  }

  lemma OneOpen(x: real)
    ensures Total([]) == 0.0 && Total([x]) == x
  {
    assert [x][..0] == [];
  }

  /** With max_concurrent at most one, no day of submissions and stop-outs, in any order and of any
      length, breaches either floor, even with the open position stopped out; and every approval
      has cost at least the venue minimum times the least stop distance. */
  lemma {:induction false} DayOneAtATime(s: Setting, es: seq<DeskEvent>, distance: real)
    requires s.limits.maxConcurrent <= 1 && distance > 0.0 && StopsAtLeast(es, distance)
    ensures OneAtATime(s, After(s, es), distance)
  {
    hide Next, OneAtATime;
    if es == [] {
      StartsFlat(s, distance);
    } else {
      var n := |es| - 1;
      DayOneAtATime(s, es[..n], distance);
      NextOneAtATime(s, After(s, es[..n]), es[n], distance);
    }
  }

  lemma StartsFlat(s: Setting, distance: real)
    ensures OneAtATime(s, Desk(s.acct.equity, [], 0), distance)
  {
  }

  lemma NextOneAtATime(s: Setting, d: Desk, e: DeskEvent, distance: real)
    requires s.limits.maxConcurrent <= 1 && distance > 0.0 && OneAtATime(s, d, distance)
    requires e.Submit? ==> Abs(e.signal.entry - e.signal.stop) >= distance
    ensures OneAtATime(s, Next(s, d, e), distance)
  {
    hide Cleared, LossAtStop, FloorOf, Abs, Total;
    OneOpen(if d.open == [] then 0.0 else d.open[0]);
    match e
    case Submit(active, signal, params) =>
      var o := OrderFor(params, signal.entry, signal.stop);
      if Approves(s.pow, s.cfg, s.limits, active, signal.rewardRisk, |d.open|, AtEquity(s, d.equity), o) {
        ClearedLoss(s, d.equity, o, distance);
        var loss, unit := LossAtStop(s, d.equity, o), VENUE_MIN_QTY_BTC * distance;
        OneOpen(loss);
        ProductPositive(VENUE_MIN_QTY_BTC, distance);
        assert d.open == [] && d.open + [loss] == [loss];
        assert (d.approvals + 1) as real * unit == d.approvals as real * unit + unit;
      }
    case StopOut(k) =>
      if k < |d.open| {
        assert d.open == [d.open[0]] && d.open[..0] + d.open[1..] == [];
      }
  }

  // ----- a day with several positions open

  /** The largest loss the sizing allows anyone on the day: one percent of its first equity. */
  function Largest(s: Setting): real {
    Times(MAX_RISK_PCT, s.acct.equity)
  }

  lemma LossAtMost(s: Setting, equity: real, o: Order)
    requires IsPow(s.pow) && equity <= s.acct.equity
    requires SizeAtFloor(s.pow, s.cfg, AtEquity(s, equity), o).Ok?
    ensures 0.0 <= LossAtStop(s, equity, o) <= Largest(s)
  {
    hide IsPow, Attenuation, Truncated, DdFloor, Abs;
    var floor := DdFloor(s.cfg, s.acct.hwm);
    StopLossWithinBudget(s.pow, equity, s.acct.peak, o, floor);
    AttenuationBounds(s.pow, equity, s.acct.peak, o.alpha, floor);
    var sized := SizeAtFloor(s.pow, s.cfg, AtEquity(s, equity), o).value;
    RiskAtMost(equity, o.riskPct, sized.attenuation, s.acct.equity);
    DistanceNonNegative(o);
    MulNonNegative(sized.quantity, Abs(o.entry - o.stop));
  }

  lemma DistanceNonNegative(o: Order)
    ensures Abs(o.entry - o.stop) >= 0.0
  {
  }

  lemma RiskAtMost(equity: real, riskPct: real, att: real, most: real)
    requires 0.0 < equity <= most && 0.0 <= riskPct <= MAX_RISK_PCT && 0.0 <= att <= 1.0
    ensures equity * riskPct * att <= Times(MAX_RISK_PCT, most)
  {
    MulNonNegative(equity, riskPct);
    MulNonNegative(equity * riskPct, 1.0 - att);
    MulNonNegative(equity, MAX_RISK_PCT - riskPct);
  }

  /** What max_concurrent positions can take beyond what the gate saw: all but the last approved. */
  ghost predicate WithinMargin(s: Setting, d: Desk) {
    && |d.open| <= s.limits.maxConcurrent && d.equity <= s.acct.equity
    && (forall k | 0 <= k < |d.open| :: 0.0 <= d.open[k] <= Largest(s))
    && (d.approvals == 0 ==> d.open == [])
    && (d.approvals > 0 ==>
          d.equity - Total(d.open)
          > FloorOf(s) + s.limits.softBuffer - (s.limits.maxConcurrent - 1) as real * Largest(s))
  }

  /** On no day of submissions and stop-outs does equity, every open position stopped out, fall below
      the floor by more than (max_concurrent - 1) percent of the day's first equity less the
      buffer. So a buffer of that size makes every day safe. */
  lemma {:induction false} DayWithinMargin(s: Setting, es: seq<DeskEvent>)
    requires IsPow(s.pow) && s.limits.maxConcurrent >= 1
    ensures WithinMargin(s, After(s, es))
  {
    hide Next, WithinMargin, IsPow;
    if es == [] {
      StartsWithin(s);
    } else {
      var n := |es| - 1;
      DayWithinMargin(s, es[..n]);
      NextWithinMargin(s, After(s, es[..n]), es[n]);
    }
  }

  lemma StartsWithin(s: Setting)
    requires s.limits.maxConcurrent >= 1
    ensures WithinMargin(s, Desk(s.acct.equity, [], 0))
  {
  }

  lemma {:induction false} NextWithinMargin(s: Setting, d: Desk, e: DeskEvent)
    requires IsPow(s.pow) && s.limits.maxConcurrent >= 1 && WithinMargin(s, d)
    ensures WithinMargin(s, Next(s, d, e))
  {
    hide IsPow, LossAtStop, FloorOf, Largest, Total;
    match e
    case Submit(active, signal, params) =>
      var o := OrderFor(params, signal.entry, signal.stop);
      if Approves(s.pow, s.cfg, s.limits, active, signal.rewardRisk, |d.open|, AtEquity(s, d.equity), o) {
        ApprovalWithinMargin(s, d, o);
      }
    case StopOut(k) =>
      if k < |d.open| {
        WithoutOne(d.open, k);
      }
  }

  lemma {:induction false} ApprovalWithinMargin(s: Setting, d: Desk, o: Order)
    requires IsPow(s.pow) && WithinMargin(s, d) && |d.open| < s.limits.maxConcurrent
    requires Cleared(s.pow, s.cfg, AtEquity(s, d.equity), o, s.limits.softBuffer)
    ensures WithinMargin(s, Desk(d.equity, d.open + [LossAtStop(s, d.equity, o)], d.approvals + 1))
  {
    hide IsPow, BindingFloor, SizeAtFloor, Total, Abs;
    var loss, j, m := LossAtStop(s, d.equity, o), |d.open|, s.limits.maxConcurrent;
    LossAtMost(s, d.equity, o);
    assert d.equity - loss > FloorOf(s) + s.limits.softBuffer;
    hide LossAtStop, FloorOf, Cleared, Largest;
    TotalAtMost(d.open, Largest(s));
    MulNonNegative((m - 1 - j) as real, Largest(s));
    assert (m - 1) as real * Largest(s) == (m - 1 - j) as real * Largest(s) + j as real * Largest(s);
    TotalOneMore(d.open, loss);
  }

  lemma TotalOneMore(losses: seq<real>, x: real)
    ensures Total(losses + [x]) == Total(losses) + x
  {
    assert (losses + [x])[..|losses|] == losses;
  }

  lemma {:induction false} WithoutOne(losses: seq<real>, k: nat)
    requires k < |losses|
    ensures Total(losses[..k] + losses[k + 1..]) == Total(losses) - losses[k]
    decreases |losses|
  {
    var n := |losses| - 1;
    if k == n {
      assert losses[..k] + losses[k + 1..] == losses[..n];
    } else {
      var init := losses[..n];
      WithoutOne(init, k);
      assert losses[..k] + losses[k + 1..] == (init[..k] + init[k + 1..]) + [losses[n]];
      TotalOneMore(init[..k] + init[k + 1..], losses[n]);
    }
  }

  // ----- several approvals on one snapshot of the account

  /** What the sizing risks before truncation; nothing for parameters it refuses. */
  function Budget(s: Setting, p: RiskParams): real {
    var a := s.acct;
    var att := Attenuation(s.pow, a.equity, a.peak, p.alpha, DdFloor(s.cfg, a.hwm));
    if a.equity <= 0.0 || !(MIN_RISK_PCT <= p.riskPct <= MAX_RISK_PCT) || att.Err? then 0.0
    else RiskUsd(a.equity, p.riskPct, att.value)
  }

  /** Ten to the n. */
  function Ten(n: nat): (r: nat)
    ensures r >= 1 && r as real == Pow10(n)
  {
    if n == 0 then 1 else 10 * Ten(n - 1)
  }

  /** The venue minimum in steps of the quantity: the least whole number that is not below it. */
  function MinSteps(decimals: nat): (n: nat)
    ensures n >= 1
  {
    if decimals <= 3 then 1 else Ten(decimals - 3)
  }

  lemma {:induction false} MinStepsIsLeast(decimals: nat, n: nat)
    ensures n as real >= VENUE_MIN_QTY_BTC * Pow10(decimals) <==> n >= MinSteps(decimals)
  {
    if decimals <= 3 {
      assert Pow10(0) == 1.0 && Pow10(1) == 10.0 && Pow10(2) == 100.0 && Pow10(3) == 1000.0;
    } else {
      Thousand(decimals - 3);
    }
  }

  lemma {:induction false} Thousand(n: nat)
    ensures Pow10(n + 3) == 1000.0 * Pow10(n)
  {
    assert Pow10(n + 3) == 10.0 * Pow10(n + 2);
    assert Pow10(n + 2) == 10.0 * Pow10(n + 1);
    assert Pow10(n + 1) == 10.0 * Pow10(n);
  }

  /** The losses the truncated sizes can reach: down to the share n/(n+1) of the budget, where n is
      the venue minimum in steps. */
  predicate Reachable(budget: real, loss: real, n: nat) {
    loss <= budget && budget * n as real < loss * (n + 1) as real
  }

  /** An order on this snapshot, under these parameters, that the gate clears. */
  predicate Admissible(s: Setting, p: RiskParams, o: Order) {
    o == OrderFor(p, o.entry, o.stop) && Cleared(s.pow, s.cfg, s.acct, o, s.limits.softBuffer)
  }

  predicate AllAdmissible(s: Setting, p: RiskParams, os: seq<Order>) {
    forall i | 0 <= i < |os| :: Admissible(s, p, os[i])
  }

  function Losses(s: Setting, os: seq<Order>): (r: seq<real>)
    ensures |r| == |os| && forall i | 0 <= i < |os| :: r[i] == LossAtStop(s, s.acct.equity, os[i])
  {
    seq(|os|, i requires 0 <= i < |os| => LossAtStop(s, s.acct.equity, os[i]))
  }

  function Reach(s: Setting): real {
    s.acct.equity - FloorOf(s)
  }

  /** How much one order may lose. */
  function Room(s: Setting): real {
    Reach(s) - s.limits.softBuffer
  }

  /** The test: the k-fold budget stays within the distance to the floor. If the full budget is
      too large for a single order, what counts is the room of one order, unless even the smallest
      reachable loss is too large. */
  predicate KFit(s: Setting, p: RiskParams, k: nat) {
    var budget, n := Budget(s, p), MinSteps(p.decimals);
    || budget <= 0.0
    || if budget < Room(s) then k as real * budget < Reach(s)
       else budget * n as real >= Room(s) * (n + 1) as real || k as real * Room(s) <= Reach(s)
  }

  /** The sizing of an order under these parameters, in terms of the budget. */
  lemma SizedFromBudget(s: Setting, p: RiskParams, o: Order)
    requires o == OrderFor(p, o.entry, o.stop)
    ensures var sized, perUnit := SizeAtFloor(s.pow, s.cfg, s.acct, o), Abs(o.entry - o.stop);
            && (sized.Ok? ==> perUnit > 0.0 && Ratio(Budget(s, p), perUnit) >= 0.0
                              && sized.value.quantity == Truncated(Ratio(Budget(s, p), perUnit), p.decimals))
            && (Budget(s, p) > 0.0 && perUnit > 0.0 && Ratio(Budget(s, p), perUnit) >= 0.0 ==> sized.Ok?)
  {
    hide Attenuation, Truncated, DdFloor, Ratio, RiskUsd;
    assert o.riskPct == p.riskPct && o.alpha == p.alpha && o.decimals == p.decimals;
  }

  /** Money facts of an admissible order: */
  lemma {:induction false} AdmissibleLoss(s: Setting, p: RiskParams, o: Order)
    requires Admissible(s, p, o)
    ensures var loss := LossAtStop(s, s.acct.equity, o);
            && Reachable(Budget(s, p), loss, MinSteps(p.decimals)) && 0.0 < loss < Room(s)
  {
    hide Truncated, BindingFloor, Reachable, MinSteps, Budget, Abs, Ratio, SizeAtFloor;
    assert AtEquity(s, s.acct.equity) == s.acct;
    SizedFromBudget(s, p, o);
    TruncatedLoss(Budget(s, p), Abs(o.entry - o.stop), p.decimals);
  }

  /** truncation keeps all but less than one step of the budget. */
  lemma {:induction false} TruncatedLoss(budget: real, perUnit: real, decimals: nat)
    requires perUnit > 0.0 && Ratio(budget, perUnit) >= 0.0
    requires Truncated(Ratio(budget, perUnit), decimals) >= VENUE_MIN_QTY_BTC
    ensures var loss := Times(Truncated(Ratio(budget, perUnit), decimals), perUnit);
            loss > 0.0 && Reachable(budget, loss, MinSteps(decimals))
  {
    hide Ratio, Truncated, MinSteps, Pow10, Floored;
    var raw := Ratio(budget, perUnit);
    RatioTimes(budget, perUnit);
    MulNonNegative(raw, perUnit);
    TruncationBounds(raw, decimals);
    var q, power := Truncated(raw, decimals), Pow10(decimals);
    var n := WholeSteps(raw, decimals);
    StepsOfMinimum(q, decimals, n);
    BandOf(budget, perUnit, power, q, raw, n, MinSteps(decimals));
  }

  lemma WholeSteps(raw: real, decimals: nat) returns (n: nat)
    requires raw >= 0.0
    ensures Truncated(raw, decimals) * Pow10(decimals) == n as real
    ensures raw * Pow10(decimals) < (n + 1) as real
  {
    hide Pow10, Ratio;
    StepsNonNegative(raw, decimals);
    n := Steps(raw, decimals).Floor;
    RatioTimes(n as real, Pow10(decimals));
  }

  lemma StepsOfMinimum(q: real, decimals: nat, n: nat)
    requires q >= VENUE_MIN_QTY_BTC && q * Pow10(decimals) == n as real
    ensures n >= MinSteps(decimals)
  {
    hide Pow10, MinSteps;
    MulNonNegative(q - VENUE_MIN_QTY_BTC, Pow10(decimals));
    MinStepsIsLeast(decimals, n);
  }

  lemma BandOf(budget: real, perUnit: real, power: real, q: real, raw: real, n: nat, least: nat)
    requires perUnit > 0.0 && power >= 1.0 && raw * perUnit == budget >= 0.0 && 0.0 <= q <= raw
    requires q * power == n as real && raw * power < (n + 1) as real && n >= least >= 1
    ensures Times(q, perUnit) > 0.0 && Reachable(budget, Times(q, perUnit), least)
  {
    var loss := q * perUnit;
    assert q > 0.0;
    ProductPositive(q, perUnit);
    MulNonNegative(raw - q, perUnit);
    assert loss <= budget;
    var gap := raw - q;
    assert gap * power == raw * power - q * power < 1.0;
    assert gap * n as real == (gap * power) * q;
    ProductPositive(q, 1.0 - gap * power);
    assert gap * n as real < q;
    MulNonNegative(gap, (n - least) as real);
    assert gap * least as real < q;
    ProductPositive(q - gap * least as real, perUnit);
    assert (gap * least as real) * perUnit == (budget - loss) * least as real;
  }

  /** The other way round: every reachable loss is the loss of an order. */
  function OrderLosing(p: RiskParams, loss: real): Order {
    OrderFor(p, 1.0 + Ratio(Times(loss, Pow10(p.decimals)), MinSteps(p.decimals) as real), 1.0)
  }

  lemma {:induction false} ReachedLoss(s: Setting, p: RiskParams, loss: real)
    requires Budget(s, p) > 0.0
    requires Reachable(Budget(s, p), loss, MinSteps(p.decimals)) && loss < Room(s)
    ensures Admissible(s, p, OrderLosing(p, loss)) && LossAtStop(s, s.acct.equity, OrderLosing(p, loss)) == loss
  {
    hide Truncated, BindingFloor, Pow10, MinSteps, Ratio, Reachable, Budget, SizeAtFloor;
    var o := OrderLosing(p, loss);
    var perUnit := Ratio(Times(loss, Pow10(p.decimals)), MinSteps(p.decimals) as real);
    assert AtEquity(s, s.acct.equity) == s.acct;
    TruncatesTo(Budget(s, p), loss, p.decimals);
    assert Abs(o.entry - o.stop) == perUnit;
    SizedFromBudget(s, p, o);
  }

  lemma {:induction false} TruncatesTo(budget: real, loss: real, decimals: nat)
    requires budget > 0.0 && Reachable(budget, loss, MinSteps(decimals))
    ensures var perUnit := Ratio(Times(loss, Pow10(decimals)), MinSteps(decimals) as real);
            && perUnit > 0.0 && Ratio(budget, perUnit) >= 0.0
            && Truncated(Ratio(budget, perUnit), decimals) >= VENUE_MIN_QTY_BTC
            && Times(Truncated(Ratio(budget, perUnit), decimals), perUnit) == loss
  {
    hide Pow10, MinSteps, Ratio, Truncated, Floored, Times, Reachable;
    var n, power := MinSteps(decimals), Pow10(decimals);
    var perUnit := Ratio(Times(loss, power), n as real);
    PositiveLoss(budget, loss, n);
    PerUnitOf(loss, power, n);
    var raw := Ratio(budget, perUnit);
    RatioTimes(budget, perUnit);
    StepsBetween(budget, loss, power, perUnit, raw, n);
    TruncatesToSteps(raw, decimals, n);
    var q := Truncated(raw, decimals);
    MinStepsIsLeast(decimals, n);
    DivideOrder(VENUE_MIN_QTY_BTC, q, power);
    SameLoss(loss, power, n, perUnit, q);
  }

  lemma PerUnitOf(loss: real, power: real, n: nat)
    requires loss > 0.0 && power >= 1.0 && n >= 1
    ensures var perUnit := Ratio(Times(loss, power), n as real);
            perUnit > 0.0 && perUnit * n as real == loss * power
  {
    hide Ratio;
    var perUnit := Ratio(Times(loss, power), n as real);
    ProductPositive(loss, power);
    RatioTimes(loss * power, n as real);
    if perUnit <= 0.0 {
      MulNonNegative(-perUnit, n as real);
    }
  }

  lemma SameLoss(loss: real, power: real, n: nat, perUnit: real, q: real)
    requires perUnit * n as real == loss * power && q * power == n as real && power >= 1.0
    ensures Times(q, perUnit) == loss
  {
    assert (q * perUnit) * power == (q * power) * perUnit;
    Cancel(q * perUnit, loss, power);
  }

  lemma PositiveLoss(budget: real, loss: real, n: nat)
    requires budget > 0.0 && n >= 1 && Reachable(budget, loss, n)
    ensures loss > 0.0
  {
    ProductPositive(budget, n as real);
    if loss <= 0.0 {
      MulNonNegative(-loss, (n + 1) as real);
    }
  }

  lemma StepsBetween(budget: real, loss: real, power: real, perUnit: real, raw: real, n: nat)
    requires loss > 0.0 && power >= 1.0 && perUnit > 0.0 && n >= 1
    requires perUnit * n as real == loss * power && raw * perUnit == budget
    requires Reachable(budget, loss, n) && budget > 0.0
    ensures n as real <= raw * power < (n + 1) as real && raw >= 0.0
  {
    if raw < 0.0 {
      ProductPositive(-raw, perUnit);
    }
    var steps := raw * power;
    assert steps * loss == raw * (loss * power) == (raw * perUnit) * n as real == budget * n as real;
    MulNonNegative(budget - loss, n as real);
    DivideOrder(n as real, steps, loss);
    if steps >= (n + 1) as real {
      MulNonNegative(steps - (n + 1) as real, loss);
    }
  }

  lemma TruncatesToSteps(raw: real, decimals: nat, n: nat)
    requires n as real <= raw * Pow10(decimals) < (n + 1) as real
    ensures Truncated(raw, decimals) * Pow10(decimals) == n as real
  {
    hide Pow10, Ratio;
    assert Floored(Steps(raw, decimals)) == n as real;
    RatioTimes(n as real, Pow10(decimals));
  }

  lemma {:induction false} TotalAtMost(losses: seq<real>, x: real)
    requires forall i | 0 <= i < |losses| :: losses[i] <= x
    ensures Total(losses) <= |losses| as real * x
  {
    if losses != [] {
      TotalAtMost(losses[..|losses| - 1], x);
      assert |losses| as real * x == (|losses| - 1) as real * x + x;
    }
  }

  lemma {:induction false} TotalBelow(losses: seq<real>, x: real)
    requires losses != [] && forall i | 0 <= i < |losses| :: losses[i] < x
    ensures Total(losses) < |losses| as real * x
  {
    var n := |losses| - 1;
    TotalAtMost(losses[..n], x);
    assert |losses| as real * x == n as real * x + x;
  }

  lemma {:induction false} TotalOfSame(losses: seq<real>, x: real)
    requires forall i | 0 <= i < |losses| :: losses[i] == x
    ensures Total(losses) == |losses| as real * x
  {
    if losses != [] {
      TotalOfSame(losses[..|losses| - 1], x);
      assert |losses| as real * x == (|losses| - 1) as real * x + x;
    }
  }

  /** The test suffices. */
  lemma {:induction false} FittingIsSafe(s: Setting, p: RiskParams, os: seq<Order>)
    requires os != [] && AllAdmissible(s, p, os) && KFit(s, p, |os|)
    ensures s.acct.equity - Total(Losses(s, os)) > FloorOf(s)
  {
    hide Admissible, LossAtStop, FloorOf, Budget, Total, MinSteps;
    var losses, budget, n := Losses(s, os), Budget(s, p), MinSteps(p.decimals);
    forall i | 0 <= i < |os|
      ensures losses[i] <= budget && 0.0 < losses[i] < Room(s) && budget * n as real < losses[i] * (n + 1) as real
    {
      AdmissibleLoss(s, p, os[i]);
    }
    assert 0.0 < losses[0] <= budget;
    if budget < Room(s) {
      TotalAtMost(losses, budget);
    } else {
      MulNonNegative(Room(s) - losses[0], (n + 1) as real);
      TotalBelow(losses, Room(s));
    }
  }

  /** A loss that breaches k-fold, for parameters that do not fit. */
  function BreachingLoss(s: Setting, p: RiskParams, k: nat): real
    requires k > 0
  {
    var budget, n := Budget(s, p), MinSteps(p.decimals);
    if budget < Room(s) then budget else Midway(budget, n, Reach(s), k, Room(s))
  }

  /** Halfway from the larger of two losses to the room: the least reachable one, and the k-th part
      of the reach. */
  function Midway(budget: real, n: nat, reach: real, k: nat, room: real): real
    requires k > 0
  {
    (room + Max(budget * n as real / (n + 1) as real, reach / k as real)) / 2.0
  }

  lemma MidwayIsAbove(budget: real, n: nat, reach: real, k: nat, room: real)
    requires k > 0 && budget * n as real < room * (n + 1) as real && reach < room * k as real
    ensures var loss := Midway(budget, n, reach, k, room);
            loss < room && budget * n as real < loss * (n + 1) as real && reach < loss * k as real
  {
    var x := budget * n as real;
    var u, v := x / (n + 1) as real, reach / k as real;
    QuotientBelow(x, n + 1, u, room);
    QuotientBelow(reach, k, v, room);
    var loss := Midway(budget, n, reach, k, room);
    assert u < loss && v < loss && loss < room;
    ProductPositive(loss - u, (n + 1) as real);
    ProductPositive(loss - v, k as real);
  }

  lemma QuotientBelow(x: real, m: nat, u: real, room: real)
    requires m > 0 && u == x / m as real && x < room * m as real
    ensures u < room && u * m as real == x
  {
    assert u * m as real == x;
    if u >= room {
      MulNonNegative(u - room, m as real);
    }
  }

  lemma {:induction false} BreachingIsReachable(s: Setting, p: RiskParams, k: nat)
    requires k > 0 && !KFit(s, p, k)
    ensures var loss := BreachingLoss(s, p, k);
            && Budget(s, p) > 0.0 && Reachable(Budget(s, p), loss, MinSteps(p.decimals)) && loss < Room(s)
            && k as real * loss >= Reach(s)
  {
    hide FloorOf, Budget, MinSteps, Reach, Room, Midway;
    var budget, n, room, reach := Budget(s, p), MinSteps(p.decimals), Room(s), Reach(s);
    if budget < room {
      assert budget * (n + 1) as real == budget * n as real + budget;
    } else {
      MidwayIsAbove(budget, n, reach, k, room);
    }
  }

  /** The test is necessary: without it some k admissible orders breach. */
  lemma {:induction false} BreachingOrders(s: Setting, p: RiskParams, k: nat) returns (os: seq<Order>)
    requires k > 0 && !KFit(s, p, k)
    ensures |os| == k && AllAdmissible(s, p, os)
    ensures s.acct.equity - Total(Losses(s, os)) <= FloorOf(s)
  {
    hide Admissible, LossAtStop, FloorOf, Budget, Total, MinSteps, OrderLosing, BreachingLoss;
    BreachingIsReachable(s, p, k);
    var loss := BreachingLoss(s, p, k);
    ReachedLoss(s, p, loss);
    os := seq(k, _ => OrderLosing(p, loss));
    TotalOfSame(Losses(s, os), loss);
  }

  /** k orders approved on one snapshot of the account and stopped out together: no choice of them
      reaches the binding floor if and only if the k-fold budget fits. */
  lemma {:induction false} TogetherIff(s: Setting, p: RiskParams, k: nat)
    requires k > 0
    ensures (forall os | |os| == k && AllAdmissible(s, p, os) :: s.acct.equity - Total(Losses(s, os)) > FloorOf(s))
            <==> KFit(s, p, k)
  {
    hide AllAdmissible, FloorOf, KFit, Total;
    if KFit(s, p, k) {
      forall os | |os| == k && AllAdmissible(s, p, os) ensures s.acct.equity - Total(Losses(s, os)) > FloorOf(s) {
        FittingIsSafe(s, p, os);
      }
    } else {
      var os := BreachingOrders(s, p, k);
    }
  }

  // ----- the same at the desk

  /** Submissions of these orders, one right after the other. */
  function Submits(p: RiskParams, os: seq<Order>): seq<DeskEvent> {
    if os == [] then [] else
    var o := os[|os| - 1];
    Submits(p, os[..|os| - 1]) + [Submit(true, Signal(Long, o.entry, o.stop, o.entry, MIN_REWARD_RISK), p)]
  }

  /** Stop-outs of the n open positions, the youngest first. */
  function StopOuts(n: nat): seq<DeskEvent> {
    if n == 0 then [] else [StopOut(n - 1)] + StopOuts(n - 1)
  }

  function AfterFrom(s: Setting, d: Desk, es: seq<DeskEvent>): Desk
    decreases |es|
  {
    if es == [] then d else AfterFrom(s, Next(s, d, es[0]), es[1..])
  }

  lemma {:induction false} AfterAppend(s: Setting, es: seq<DeskEvent>, fs: seq<DeskEvent>)
    ensures After(s, es + fs) == AfterFrom(s, After(s, es), fs)
    decreases |fs|
  {
    hide Next;
    if fs == [] {
      assert es + fs == es;
    } else {
      var more := es + [fs[0]];
      assert more[..|es|] == es && es + fs == more + fs[1..];
      AfterAppend(s, more, fs[1..]);
    }
  }

  /** As long as places are free each of the orders is approved, on the very same account. */
  lemma {:induction false} AllApproved(s: Setting, p: RiskParams, os: seq<Order>)
    requires AllAdmissible(s, p, os) && |os| <= s.limits.maxConcurrent
    ensures After(s, Submits(p, os)) == Desk(s.acct.equity, Losses(s, os), |os|)
  {
    hide Cleared, LossAtStop;
    if os == [] {
      assert Losses(s, os) == [];
    } else {
      var n := |os| - 1;
      AllApproved(s, p, os[..n]);
      assert Submits(p, os)[..n] == Submits(p, os[..n]) by {
        SubmitsLength(p, os[..n]);
      }
      SubmitsLength(p, os);
      assert AtEquity(s, s.acct.equity) == s.acct && Admissible(s, p, os[n]);
      assert Losses(s, os) == Losses(s, os[..n]) + [LossAtStop(s, s.acct.equity, os[n])];
    }
  }

  lemma {:induction false} SubmitsLength(p: RiskParams, os: seq<Order>)
    ensures |Submits(p, os)| == |os|
  {
    if os != [] {
      SubmitsLength(p, os[..|os| - 1]);
    }
  }

  lemma {:induction false} AllStopped(s: Setting, d: Desk)
    ensures AfterFrom(s, d, StopOuts(|d.open|)) == Desk(d.equity - Total(d.open), [], d.approvals)
    decreases |d.open|
  {
    if d.open != [] {
      var n := |d.open| - 1;
      var left := Desk(d.equity - d.open[n], d.open[..n], d.approvals);
      assert d.open[..n] + d.open[n + 1..] == d.open[..n];
      assert StopOuts(n + 1)[1..] == StopOuts(n);
      AllStopped(s, left);
    }
  }

  /** Approved one after the other and all stopped out, k admissible orders leave equity less their
      losses: what TogetherIff speaks of happens at the desk if k positions may be open. */
  lemma {:induction false} StoppedTogether(s: Setting, p: RiskParams, os: seq<Order>)
    requires AllAdmissible(s, p, os) && |os| <= s.limits.maxConcurrent
    ensures After(s, Submits(p, os) + StopOuts(|os|)) == Desk(s.acct.equity - Total(Losses(s, os)), [], |os|)
  {
    hide Next, Total;
    AllApproved(s, p, os);
    AfterAppend(s, Submits(p, os), StopOuts(|os|));
    AllStopped(s, Desk(s.acct.equity, Losses(s, os), |os|));
  }

  /** A day that breaches: two positions of one percent each on 100000, after a good start of the
      day. Both are approved, and both stops leave 98000, below the daily floor of 98400. */
  lemma {:induction false} TwoOpenBreach(pow: (real, real) -> real)
    requires IsPow(pow)
    ensures var s := Setting(pow, ChallengeConfig(StaticTier, 6.0, 3.0, 100000.0), GateLimits(2, 500.0),
                             Account(100000.0, 100000.0, 101400.0, None));
            var submit := Submit(true, Signal(Long, 100000.0, 99000.0, 102000.0, 2.0), RiskParams(0.01, 1.0, 5));
            && After(s, [submit, submit, StopOut(1), StopOut(0)]) == Desk(98000.0, [], 2)
            && FloorOf(s) == 98400.0
  {
    var s := Setting(pow, ChallengeConfig(StaticTier, 6.0, 3.0, 100000.0), GateLimits(2, 500.0),
                     Account(100000.0, 100000.0, 101400.0, None));
    var submit := Submit(true, Signal(Long, 100000.0, 99000.0, 102000.0, 2.0), RiskParams(0.01, 1.0, 5));
    OneCoin(s, OrderFor(submit.params, 100000.0, 99000.0));
    hide Cleared, LossAtStop, FloorOf;
    assert AtEquity(s, 100000.0) == s.acct;
    var es := [submit, submit, StopOut(1), StopOut(0)];
    AfterAppend(s, [], es);
    hide After;
    assert [] + es == es;
    FourSteps(s, Desk(100000.0, [], 0), es);
    assert Next(s, Desk(100000.0, [], 0), submit) == Desk(100000.0, [1000.0], 1);
    assert Next(s, Desk(100000.0, [1000.0], 1), submit) == Desk(100000.0, [1000.0, 1000.0], 2);
    assert Next(s, Desk(100000.0, [1000.0, 1000.0], 2), StopOut(1)) == Desk(99000.0, [1000.0], 2);
  }

  lemma FourSteps(s: Setting, d: Desk, es: seq<DeskEvent>)
    requires |es| == 4
    ensures AfterFrom(s, d, es) == Next(s, Next(s, Next(s, Next(s, d, es[0]), es[1]), es[2]), es[3])
  {
    hide Next;
    var d1 := Next(s, d, es[0]);
    var d2 := Next(s, d1, es[1]);
    var d3 := Next(s, d2, es[2]);
    assert AfterFrom(s, d, es) == AfterFrom(s, d1, es[1..]) == AfterFrom(s, d2, es[1..][1..]);
    assert es[1..][1..] == [es[2], es[3]] && [es[2], es[3]][1..] == [es[3]] && [es[3]][1..] == [];
    assert AfterFrom(s, d3, [es[3]]) == Next(s, d3, es[3]);
  }

  lemma OneCoin(s: Setting, o: Order)
    requires s.cfg == ChallengeConfig(StaticTier, 6.0, 3.0, 100000.0) && s.limits == GateLimits(2, 500.0)
    requires s.acct == Account(100000.0, 100000.0, 101400.0, None) && IsPow(s.pow)
    requires o == Order(100000.0, 99000.0, 0.01, 1.0, 5)
    ensures Cleared(s.pow, s.cfg, s.acct, o, 500.0) && LossAtStop(s, 100000.0, o) == 1000.0
    ensures FloorOf(s) == 98400.0
  {
    assert Attenuation(s.pow, 100000.0, 100000.0, 1.0, 94000.0) == Ok(1.0) by {
      AttenuationBounds(s.pow, 100000.0, 100000.0, 1.0, 94000.0);
    }
    hide Attenuation;
    assert DdFloor(s.cfg, None) == 94000.0;
    assert Pow10(0) == 1.0 && Pow10(1) == 10.0 && Pow10(2) == 100.0 && Pow10(3) == 1000.0 && Pow10(4) == 10000.0;
    assert Steps(1.0, 5) == 100000.0 && Floored(100000.0) == 100000.0;
    assert Truncated(1.0, 5) == 1.0;
    assert AtEquity(s, 100000.0) == s.acct;
  }
}
