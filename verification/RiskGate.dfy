/** risk/gate.py: the all-must-pass check before any order intent. */
module RiskGate {
  import opened Market
  import opened Signals
  import opened Sizing

  datatype Refusal =
    | EngineNotActive
    | LowRewardRisk
    | MaxConcurrent
    | SizingRejected(error: string)
    | BelowVenueMinimum
    | FloorNotCleared

  datatype GateDecision = GateDecision(approved: bool, reasons: seq<Refusal>, sized: Sized,
                                       worstCase: real, floor: real)

  datatype Account = Account(equity: real, peak: real, dayStart: real, hwm: Option<real>)

  datatype GateLimits = GateLimits(maxConcurrent: int, softBuffer: real)

  function SizeAtFloor(pow: (real, real) -> real, cfg: ChallengeConfig, acct: Account, o: Order): Result<Sized> {
    SizeAttenuated(pow, acct.equity, acct.peak, o, DdFloor(cfg, acct.hwm))
  }

  /** What an approval guarantees of the order's fill at the stop. */
  predicate Cleared(pow: (real, real) -> real, cfg: ChallengeConfig, acct: Account, o: Order, buffer: real) {
    var sized := SizeAtFloor(pow, cfg, acct, o);
    && sized.Ok?
    && sized.value.quantity >= VENUE_MIN_QTY_BTC
    && acct.equity - Abs(o.entry - o.stop) * sized.value.quantity > BindingFloor(cfg, acct.dayStart, acct.hwm) + buffer
  }

  /** What the gate asks for: an active engine, enough reward, a free place, and an order whose stop
      clears the floors. */
  predicate Approves(pow: (real, real) -> real, cfg: ChallengeConfig, limits: GateLimits, active: bool,
                     rewardRisk: real, openCount: int, acct: Account, o: Order) {
    && active && rewardRisk >= MIN_REWARD_RISK && openCount < limits.maxConcurrent
    && Cleared(pow, cfg, acct, o, limits.softBuffer)
  }

  /** The reasons so far, and one more if it applies. */
  function Refuse(reasons: seq<Refusal>, applies: bool, r: Refusal): (all: seq<Refusal>)
    ensures all == [] <==> reasons == [] && !applies
    ensures forall x :: x in all <==> x in reasons || (applies && x == r)
  {
    if applies then reasons + [r] else reasons
  }

  /** `o` carries the signal's entry and stop. */
  method EvaluateGate(pow: (real, real) -> real, active: bool, signal: Signal, openCount: int, acct: Account,
                      o: Order, limits: GateLimits, cfg: ChallengeConfig) returns (g: GateDecision)
    requires o.entry == signal.entry && o.stop == signal.stop
    ensures g.approved <==> g.reasons == []
    ensures g.approved <==> Approves(pow, cfg, limits, active, signal.rewardRisk, openCount, acct, o)
    ensures g.floor == BindingFloor(cfg, acct.dayStart, acct.hwm)
    ensures var sized := SizeAtFloor(pow, cfg, acct, o);
            && g.sized == (if sized.Ok? then sized.value else Sized(0.0, 0.0, 0.0))
            && (sized.Err? <==> SizingRejected(if sized.Err? then sized.error else "") in g.reasons)
    ensures g.worstCase == acct.equity - Abs(signal.entry - signal.stop) * g.sized.quantity
    ensures EngineNotActive in g.reasons <==> !active
    ensures LowRewardRisk in g.reasons <==> signal.rewardRisk < MIN_REWARD_RISK
    ensures MaxConcurrent in g.reasons <==> openCount >= limits.maxConcurrent
    ensures BelowVenueMinimum in g.reasons <==> g.sized.quantity < VENUE_MIN_QTY_BTC
    ensures FloorNotCleared in g.reasons <==> g.worstCase <= g.floor + limits.softBuffer
  {
    hide SizeAtFloor, BindingFloor, Abs, Refuse;
    var floor := BindingFloor(cfg, acct.dayStart, acct.hwm);
    var reasons := Refuse([], !active, EngineNotActive);
    reasons := Refuse(reasons, signal.rewardRisk < MIN_REWARD_RISK, LowRewardRisk);
    reasons := Refuse(reasons, openCount >= limits.maxConcurrent, MaxConcurrent);
    var sized := Sized(0.0, 0.0, 0.0);
    var attempt := SizeAtFloor(pow, cfg, acct, o);
    match attempt {
      case Ok(s) => sized := s;
      case Err(e) => reasons := Refuse(reasons, true, SizingRejected(e));
    }
    reasons := Refuse(reasons, sized.quantity < VENUE_MIN_QTY_BTC, BelowVenueMinimum);
    var worstCase := acct.equity - Abs(signal.entry - signal.stop) * sized.quantity;
    reasons := Refuse(reasons, worstCase <= floor + limits.softBuffer, FloorNotCleared);
    g := GateDecision(reasons == [], reasons, sized, worstCase, floor);
  }

  // ----- approval after approval

  /** A stopped-out approved order leaves equity above both floors by the buffer. */
  lemma ApprovedStopClearsFloors(pow: (real, real) -> real, cfg: ChallengeConfig, acct: Account, o: Order, buffer: real)
    requires Cleared(pow, cfg, acct, o, buffer)
    ensures AfterStop(pow, acct.equity, acct.peak, o, DdFloor(cfg, acct.hwm)) > DailyFloor(cfg, acct.dayStart) + buffer
    ensures AfterStop(pow, acct.equity, acct.peak, o, DdFloor(cfg, acct.hwm)) > DdFloor(cfg, acct.hwm) + buffer
  {
    hide SizeAttenuated, DdFloor;
  }

  /** Orders approved one after the other on the same day, each on the equity the last stop-out
      left. */
  predicate AllCleared(pow: (real, real) -> real, cfg: ChallengeConfig, acct: Account, os: seq<Order>, buffer: real) {
    os == [] ||
    var n := |os| - 1;
    && AllCleared(pow, cfg, acct, os[..n], buffer)
    && Cleared(pow, cfg, acct.(equity := LeftAfter(pow, cfg, acct, os[..n])), os[n], buffer)
  }

  function LeftAfter(pow: (real, real) -> real, cfg: ChallengeConfig, acct: Account, os: seq<Order>): real {
    AfterStops(pow, acct.equity, acct.peak, os, DdFloor(cfg, acct.hwm))
  }

  predicate DistanceAtLeast(os: seq<Order>, d: real) {
    forall i | 0 <= i < |os| :: Abs(os[i].entry - os[i].stop) >= d
  }

  /** Approved orders each of which is stopped out before the next is approved never breach the
      daily loss limit or the drawdown floor, and their number is bounded: each costs at least the
      venue minimum times its stop distance. */
  lemma {:induction false} DayOfStopOuts(pow: (real, real) -> real, cfg: ChallengeConfig, acct: Account, os: seq<Order>,
                                         buffer: real, minDistance: real)
    requires minDistance > 0.0
    ensures AllCleared(pow, cfg, acct, os, buffer) && DistanceAtLeast(os, minDistance) ==>
              && (os != [] ==> LeftAfter(pow, cfg, acct, os) > BindingFloor(cfg, acct.dayStart, acct.hwm) + buffer)
              && LeftAfter(pow, cfg, acct, os) <= acct.equity - |os| as real * (VENUE_MIN_QTY_BTC * minDistance)
  {
    hide DdFloor, Cleared, BindingFloor, AfterStop;
    if os != [] && AllCleared(pow, cfg, acct, os, buffer) && DistanceAtLeast(os, minDistance) {
      var n := |os| - 1;
      DayOfStopOuts(pow, cfg, acct, os[..n], buffer, minDistance);
      ApprovedCosts(pow, cfg, acct.(equity := LeftAfter(pow, cfg, acct, os[..n])), os[n], buffer, minDistance);
    }
  }

  lemma ApprovedCosts(pow: (real, real) -> real, cfg: ChallengeConfig, acct: Account, o: Order, buffer: real,
                      minDistance: real)
    requires Cleared(pow, cfg, acct, o, buffer) && Abs(o.entry - o.stop) >= minDistance > 0.0
    ensures AfterStop(pow, acct.equity, acct.peak, o, DdFloor(cfg, acct.hwm))
            <= acct.equity - VENUE_MIN_QTY_BTC * minDistance
    ensures AfterStop(pow, acct.equity, acct.peak, o, DdFloor(cfg, acct.hwm))
            > BindingFloor(cfg, acct.dayStart, acct.hwm) + buffer
  {
    hide SizeAttenuated, DdFloor;
    var q, d := SizeAtFloor(pow, cfg, acct, o).value.quantity, Abs(o.entry - o.stop);
    MulNonNegative(q - VENUE_MIN_QTY_BTC, d);
    MulNonNegative(VENUE_MIN_QTY_BTC, d - minDistance);
    assert (q - VENUE_MIN_QTY_BTC) * d == q * d - VENUE_MIN_QTY_BTC * d;
  }
}
