/** The grammar of every cycle run and the loss bound of every leg
    (backtest.py, run_fisher_cycle_backtest and _cycle_leg_result). */
module CycleGrammar {
  import opened Market
  import opened FisherCycle
  import opened Trigger1H
  import opened Atr
  import opened CycleMachine

  function Along(b: Bias): Direction {
    if b == Bullish then Long else Short
  }

  /** The bias of the bar on which the leg was opened. */
  function EntryBias(rs: seq<Reading>, leg: Leg): Bias
    requires leg.entryIndex < |rs|
  {
    rs[leg.entryIndex].bias
  }

  /** Every leg is opened at a close, with its own ATR stop, under a directional bias. */
  ghost predicate Opens(rules: Rules, rs: seq<Reading>, leg: Leg) {
    && leg.entryIndex < |rs|
    && leg == NewLeg(rules, leg.direction, rs[leg.entryIndex], leg.entryIndex)
    && EntryBias(rs, leg) != Neutral
    && rs[leg.entryIndex].atr > 0.0
  }

  /** Bar j gives the open leg no reason to close. */
  ghost predicate Quiet(rules: Rules, rs: seq<Reading>, leg: Leg, j: nat)
    requires leg.entryIndex < |rs| && j < |rs|
  {
    && !HitStop(leg, rs[j])
    && rs[j].bias == EntryBias(rs, leg)
    && !IsExhausted(leg.direction, rs[j].fisher, rules.threshold)
  }

  ghost predicate HeldUntil(rules: Rules, rs: seq<Reading>, leg: Leg, n: nat) {
    leg.entryIndex < n <= |rs| && forall j | leg.entryIndex < j < n :: Quiet(rules, rs, leg, j)
  }

  /** A leg closes at the first bar that is not quiet, for the first reason in the order stop,
      bias, exhaustion. */
  ghost predicate Ends(rules: Rules, rs: seq<Reading>, r: LegResult) {
    && r.Closed? && r.exitIndex < |rs|
    && HeldUntil(rules, rs, r.leg, r.exitIndex)
    && r == CloseLeg(r.leg, r.cycleId, r.exitIndex, r.exitPrice, r.reason)
    && var bar := rs[r.exitIndex];
       match r.reason
       case StopHit => HitStop(r.leg, bar) && r.exitPrice == r.leg.stop
       case BiasFlip =>
         !HitStop(r.leg, bar) && bar.bias != EntryBias(rs, r.leg) && r.exitPrice == bar.close
       case ExhaustionFlip =>
         !HitStop(r.leg, bar) && bar.bias == EntryBias(rs, r.leg)
         && IsExhausted(r.leg.direction, bar.fisher, rules.threshold) && r.exitPrice == bar.close
  }

  // ----- while flat

  /** A machine that is flat at this bar opens a leg. */
  predicate Qualifies(rules: Rules, r: Reading) {
    r.atr > 0.0 && OpeningDirection(r.bias, r.fisher, rules.threshold).Some?
  }

  /** None of the bars from..n-1 would open a leg. */
  ghost predicate Waits(rules: Rules, rs: seq<Reading>, from: nat, n: nat)
    requires n <= |rs|
  {
    forall j | from <= j < n :: !Qualifies(rules, rs[j])
  }

  /** The first bar at which a machine that is flat after this exit may open: the next bar after a
      stop, the same bar after a bias flip. */
  function FlatFrom(p: LegResult): nat
    requires p.Closed?
  {
    if p.reason == StopHit then p.exitIndex + 1 else p.exitIndex
  }

  /** The cycle of a stopped leg is alive before bar n: no bar since the stop had another bias. */
  ghost predicate Survives(rs: seq<Reading>, p: LegResult, n: nat)
    requires p.Closed? && p.leg.entryIndex < |rs| && n <= |rs|
  {
    p.reason == StopHit && forall j | p.exitIndex < j < n :: rs[j].bias == EntryBias(rs, p.leg)
  }

  /** The leg opens along the bias at the first bar, `from` on, that opens one. */
  ghost predicate FirstOpening(rules: Rules, rs: seq<Reading>, from: nat, leg: Leg)
    requires leg.entryIndex < |rs|
  {
    && from <= leg.entryIndex && Waits(rules, rs, from, leg.entryIndex)
    && var bar := rs[leg.entryIndex];
       OpeningDirection(bar.bias, bar.fisher, rules.threshold) == Some(leg.direction)
  }

  /** How a leg of cycle `id` follows its predecessor. */
  ghost predicate Link(rules: Rules, rs: seq<Reading>, prev: Option<LegResult>, leg: Leg, id: nat)
    requires leg.entryIndex < |rs|
  {
    match prev
    case None => id == 1 && FirstOpening(rules, rs, WARMUP_TRIGGER_BARS, leg)
    case Some(p) =>
      && p.Closed? && p.leg.entryIndex < |rs|
      && if p.reason == ExhaustionFlip then
           && id == p.cycleId && EntryBias(rs, leg) == EntryBias(rs, p.leg)
           && leg.direction == Opposite(p.leg.direction)
           && leg.entryIndex == p.exitIndex && leg.entry == p.exitPrice
         else
           && FirstOpening(rules, rs, FlatFrom(p), leg)
           && id == if Survives(rs, p, leg.entryIndex + 1) then p.cycleId else p.cycleId + 1
  }

  function Prev(legs: seq<LegResult>, k: nat): Option<LegResult>
    requires k <= |legs|
  {
    if k == 0 then None else Some(legs[k - 1])
  }

  function Last(legs: seq<LegResult>): Option<LegResult> {
    Prev(legs, |legs|)
  }

  ghost predicate Listed(rules: Rules, rs: seq<Reading>, legs: seq<LegResult>, k: nat)
    requires k < |legs|
  {
    Opens(rules, rs, legs[k].leg) && Link(rules, rs, Prev(legs, k), legs[k].leg, legs[k].cycleId)
  }

  ghost predicate Chain(rules: Rules, rs: seq<Reading>, legs: seq<LegResult>) {
    forall k | 0 <= k < |legs| :: Listed(rules, rs, legs, k) && Ends(rules, rs, legs[k])
  }

  ghost predicate OpenLeg(rules: Rules, rs: seq<Reading>, n: nat, m: Machine, leg: Leg) {
    && Opens(rules, rs, leg) && Link(rules, rs, Last(m.legs), leg, m.cycleId)
    && HeldUntil(rules, rs, leg, n)
    && m.macro == Some(EntryBias(rs, leg))
  }

  /** Flat, with no opening missed before bar n; the cycle is alive only after a stop, under the
      bias it opened with. */
  ghost predicate Flat(rules: Rules, rs: seq<Reading>, n: nat, m: Machine)
    requires n <= |rs|
  {
    match Last(m.legs)
    case None => m.cycleId == 0 && m.macro == None && Waits(rules, rs, WARMUP_TRIGGER_BARS, n)
    case Some(p) =>
      && p.Closed? && p.leg.entryIndex < |rs| && p.reason != ExhaustionFlip
      && FlatFrom(p) <= n && Waits(rules, rs, FlatFrom(p), n)
      && m.cycleId == p.cycleId
      && m.macro == if Survives(rs, p, n) then Some(EntryBias(rs, p.leg)) else None
  }

  ghost predicate Invariant(rules: Rules, rs: seq<Reading>, n: nat, m: Machine)
    requires n <= |rs|
  {
    && Chain(rules, rs, m.legs)
    && match m.leg
       case None => Flat(rules, rs, n, m)
       case Some(leg) => OpenLeg(rules, rs, n, m, leg)
  }

  ghost predicate AtrPersists(rs: seq<Reading>) {
    forall i, j | 0 <= i <= j < |rs| && rs[i].atr > 0.0 :: rs[j].atr > 0.0
  }

  lemma {:induction false} ChainAppend(rules: Rules, rs: seq<Reading>, legs: seq<LegResult>, r: LegResult)
    requires Chain(rules, rs, legs) && Ends(rules, rs, r)
    requires Opens(rules, rs, r.leg) && Link(rules, rs, Last(legs), r.leg, r.cycleId)
    ensures Chain(rules, rs, legs + [r]) && Last(legs + [r]) == Some(r)
  {
    hide Ends, Opens, Link;
    var all := legs + [r];
    forall k | 0 <= k < |all| ensures Listed(rules, rs, all, k) && Ends(rules, rs, all[k]) {
      assert Prev(all, k) == Prev(legs, k);
      if k < |legs| {
        assert Listed(rules, rs, legs, k);
      }
    }
  }

  // ----- the open leg's turn

  lemma QuietKeeps(rules: Rules, rs: seq<Reading>, n: nat, m: Machine, leg: Leg)
    requires n < |rs| && OpenLeg(rules, rs, n, m, leg) && !HitStop(leg, rs[n])
    requires !MacroBroken(m.macro, rs[n].bias) && !IsExhausted(leg.direction, rs[n].fisher, rules.threshold)
    ensures OpenLeg(rules, rs, n + 1, m, leg)
  {
    hide Link, HitStop;
  }

  lemma {:induction false} StopKeeps(rules: Rules, rs: seq<Reading>, n: nat, m: Machine, leg: Leg)
    requires n < |rs| && Chain(rules, rs, m.legs) && OpenLeg(rules, rs, n, m, leg) && HitStop(leg, rs[n])
    ensures var r := CloseLeg(leg, m.cycleId, n, leg.stop, StopHit);
            Chain(rules, rs, m.legs + [r]) && Flat(rules, rs, n + 1, m.(leg := None, legs := m.legs + [r]))
  {
    hide Chain, Link;
    ChainAppend(rules, rs, m.legs, CloseLeg(leg, m.cycleId, n, leg.stop, StopHit));
  }

  lemma {:induction false} BiasFlipKeeps(rules: Rules, rs: seq<Reading>, n: nat, m: Machine, leg: Leg)
    requires n < |rs| && Chain(rules, rs, m.legs) && OpenLeg(rules, rs, n, m, leg)
    requires !HitStop(leg, rs[n]) && MacroBroken(m.macro, rs[n].bias)
    ensures var r := CloseLeg(leg, m.cycleId, n, rs[n].close, BiasFlip);
            Chain(rules, rs, m.legs + [r]) && Flat(rules, rs, n, m.(leg := None, macro := None, legs := m.legs + [r]))
  {
    hide Chain, Link, HitStop;
    ChainAppend(rules, rs, m.legs, CloseLeg(leg, m.cycleId, n, rs[n].close, BiasFlip));
  }

  lemma {:induction false} ExhaustionKeeps(rules: Rules, rs: seq<Reading>, n: nat, m: Machine, leg: Leg)
    requires n < |rs| && AtrPersists(rs) && Chain(rules, rs, m.legs) && OpenLeg(rules, rs, n, m, leg)
    requires !HitStop(leg, rs[n]) && !MacroBroken(m.macro, rs[n].bias)
    requires IsExhausted(leg.direction, rs[n].fisher, rules.threshold)
    ensures var r := CloseLeg(leg, m.cycleId, n, rs[n].close, ExhaustionFlip);
            var flipped := NewLeg(rules, Opposite(leg.direction), rs[n], n);
            && Chain(rules, rs, m.legs + [r])
            && OpenLeg(rules, rs, n + 1, m.(leg := Some(flipped), legs := m.legs + [r]), flipped)
  {
    hide Chain, HitStop, FirstOpening, Survives;
    var r := CloseLeg(leg, m.cycleId, n, rs[n].close, ExhaustionFlip);
    assert Ends(rules, rs, r) by {
      hide Link;
    }
    ChainAppend(rules, rs, m.legs, r);
  }

  // ----- the flat machine's turn

  lemma RearmKeeps(rules: Rules, rs: seq<Reading>, n: nat, m: Machine)
    requires WARMUP_TRIGGER_BARS <= n < |rs| && rs[n].atr > 0.0 && m.leg.None? && Flat(rules, rs, n, m)
    ensures var m' := Rearm(rules, rs[n], n, m);
            && m'.legs == m.legs
            && match m'.leg
               case None => Flat(rules, rs, n + 1, m')
               case Some(leg) => OpenLeg(rules, rs, n + 1, m', leg)
  {
  }

  /** Once there was a leg there is a range. */
  lemma RangeSinceFirstLeg(rules: Rules, rs: seq<Reading>, n: nat, m: Machine)
    requires n < |rs| && AtrPersists(rs) && m.legs != []
    requires Chain(rules, rs, m.legs) && Flat(rules, rs, n, m)
    ensures rs[n].atr > 0.0
  {
    var k := |m.legs| - 1;
    assert Listed(rules, rs, m.legs, k) && Ends(rules, rs, m.legs[k]);
    hide Chain, Link;
    var e := m.legs[k].leg.entryIndex;
    assert rs[e].atr > 0.0 && e < m.legs[k].exitIndex <= n;
  }

  /** Without a range nothing opens, and no cycle is alive that could expire. */
  lemma IdleKeeps(rules: Rules, rs: seq<Reading>, n: nat, m: Machine)
    requires n < |rs| && rs[n].atr <= 0.0 && AtrPersists(rs)
    requires Chain(rules, rs, m.legs) && Flat(rules, rs, n, m)
    ensures Flat(rules, rs, n + 1, m)
  {
    hide Chain, AtrPersists;
    if m.legs != [] {
      RangeSinceFirstLeg(rules, rs, n, m);
    }
  }

  lemma {:induction false} StepKeeps(rules: Rules, rs: seq<Reading>, n: nat, m: Machine)
    requires WARMUP_TRIGGER_BARS <= n < |rs| && AtrPersists(rs) && Invariant(rules, rs, n, m)
    ensures Invariant(rules, rs, n + 1, Step(rules, rs[n], n, m))
  {
    hide Chain, Flat, OpenLeg, Rearm, AtrPersists;
    if m.leg.None? {
      FlatTurn(rules, rs, n, m);
    } else if HitStop(m.leg.value, rs[n]) {
      StopKeeps(rules, rs, n, m, m.leg.value);
    } else if MacroBroken(m.macro, rs[n].bias) {
      BiasFlipKeeps(rules, rs, n, m, m.leg.value);
      FlatTurn(rules, rs, n, Manage(rules, rs[n], n, m));
    } else if IsExhausted(m.leg.value.direction, rs[n].fisher, rules.threshold) {
      ExhaustionKeeps(rules, rs, n, m, m.leg.value);
    } else {
      QuietKeeps(rules, rs, n, m, m.leg.value);
    }
  }

  lemma FlatTurn(rules: Rules, rs: seq<Reading>, n: nat, m: Machine)
    requires WARMUP_TRIGGER_BARS <= n < |rs| && AtrPersists(rs)
    requires Chain(rules, rs, m.legs) && m.leg.None? && Flat(rules, rs, n, m)
    ensures Invariant(rules, rs, n + 1, if rs[n].atr > 0.0 then Rearm(rules, rs[n], n, m) else m)
  {
    hide Flat, OpenLeg, Rearm, Chain, AtrPersists;
    if rs[n].atr > 0.0 {
      RearmKeeps(rules, rs, n, m);
    } else {
      IdleKeeps(rules, rs, n, m);
    }
  }

  lemma StartKeeps(rules: Rules, rs: seq<Reading>, n: nat)
    requires n <= |rs| && n <= WARMUP_TRIGGER_BARS
    ensures Invariant(rules, rs, n, START)
  {
  }

  lemma {:induction false} RunKeeps(rules: Rules, rs: seq<Reading>, n: nat)
    requires n <= |rs| && AtrPersists(rs)
    ensures Invariant(rules, rs, n, RunTo(rules, rs, n))
  {
    hide Invariant, Step, AtrPersists;
    if n <= WARMUP_TRIGGER_BARS {
      StartKeeps(rules, rs, n);
    } else {
      RunKeeps(rules, rs, n - 1);
      StepKeeps(rules, rs, n - 1, RunTo(rules, rs, n - 1));
    }
  }

  // ----- the grammar of the reported legs

  /** Every reported leg opens and follows by the rules; all but the last are closed, an unresolved
      last one was held to the end of the data, and a flat end missed no opening. */
  ghost predicate Grammar(rules: Rules, rs: seq<Reading>, legs: seq<LegResult>) {
    && (forall k | 0 <= k < |legs| :: LegOk(rules, rs, legs, k))
    && AtEnd(rules, rs, Last(legs))
  }

  ghost predicate LegOk(rules: Rules, rs: seq<Reading>, legs: seq<LegResult>, k: nat)
    requires k < |legs|
  {
    && Listed(rules, rs, legs, k)
    && (legs[k].Closed? ==> Ends(rules, rs, legs[k]))
    && (legs[k].Unresolved? ==> k == |legs| - 1 && HeldUntil(rules, rs, legs[k].leg, |rs|))
  }

  ghost predicate AtEnd(rules: Rules, rs: seq<Reading>, last: Option<LegResult>) {
    match last
    case None => Waits(rules, rs, WARMUP_TRIGGER_BARS, |rs|)
    case Some(p) => p.Closed? ==> p.reason != ExhaustionFlip && Waits(rules, rs, FlatFrom(p), |rs|)
  }

  lemma AtrPersistsInReadings(ln: real -> real, daily: seq<Candle>, trig: seq<Candle>)
    ensures AtrPersists(Readings(ln, daily, trig))
  {
    var rs := Readings(ln, daily, trig);
    forall i, j | 0 <= i <= j < |rs| && rs[i].atr > 0.0 ensures rs[j].atr > 0.0 {
      hide FisherAt, DailyBiasAt;
      AtrStaysPositive(trig, ATR_PERIOD, i, j);
    }
  }

  lemma EndsIsClosed(rules: Rules, rs: seq<Reading>, r: LegResult)
    requires Ends(rules, rs, r)
    ensures r.Closed?
  {
  }

  /** The reported trade list obeys the grammar. */
  lemma {:induction false} ReportObeys(rules: Rules, rs: seq<Reading>, m: Machine)
    requires Invariant(rules, rs, |rs|, m)
    ensures Grammar(rules, rs, Report(m))
  {
    hide Opens, Link, Ends, HeldUntil, Waits, Survives;
    var all := Report(m);
    forall k | 0 <= k < |all| ensures LegOk(rules, rs, all, k) {
      assert Prev(all, k) == Prev(m.legs, k);
      if k < |m.legs| {
        assert all[k] == m.legs[k];
        assert Listed(rules, rs, m.legs, k) && Ends(rules, rs, m.legs[k]);
        EndsIsClosed(rules, rs, m.legs[k]);
      }
    }
  }

  // ----- the grammar leaves no choice

  lemma OneOpening(rules: Rules, rs: seq<Reading>, from: nat, x: Leg, y: Leg)
    requires Opens(rules, rs, x) && FirstOpening(rules, rs, from, x)
    requires Opens(rules, rs, y) && FirstOpening(rules, rs, from, y)
    ensures x == y
  {
    hide NewLeg, OpeningDirection;
    assert Qualifies(rules, rs[x.entryIndex]) && Qualifies(rules, rs[y.entryIndex]);
  }

  /** One predecessor, one successor; */
  lemma OneLink(rules: Rules, rs: seq<Reading>, prev: Option<LegResult>, x: Leg, i: nat, y: Leg, j: nat)
    requires Opens(rules, rs, x) && Link(rules, rs, prev, x, i)
    requires Opens(rules, rs, y) && Link(rules, rs, prev, y, j)
    ensures x == y && i == j
  {
    hide Opens, FirstOpening, Survives;
    match prev
    case None => OneOpening(rules, rs, WARMUP_TRIGGER_BARS, x, y);
    case Some(p) =>
      if p.reason == ExhaustionFlip {
        SameStart(rules, rs, x, y);
      } else {
        OneOpening(rules, rs, FlatFrom(p), x, y);
      }
  }

  lemma SameStart(rules: Rules, rs: seq<Reading>, x: Leg, y: Leg)
    requires Opens(rules, rs, x) && Opens(rules, rs, y)
    requires x.entryIndex == y.entryIndex && x.direction == y.direction
    ensures x == y
  {
  }

  /** a successor is an opening that a flat end would have missed; */
  lemma LinkIsNoEnd(rules: Rules, rs: seq<Reading>, prev: Option<LegResult>, leg: Leg, id: nat)
    requires Opens(rules, rs, leg) && Link(rules, rs, prev, leg, id)
    ensures !AtEnd(rules, rs, prev)
  {
    hide NewLeg, OpeningDirection, Survives;
    assert prev.None? || prev.value.reason != ExhaustionFlip ==> Qualifies(rules, rs[leg.entryIndex]);
  }

  /** one leg, one end: at the same bar, */
  lemma OneExitBar(rules: Rules, rs: seq<Reading>, x: LegResult, y: LegResult)
    requires x.leg == y.leg && Ends(rules, rs, x) && Ends(rules, rs, y)
    ensures x.exitIndex == y.exitIndex
  {
    hide HitStop, IsExhausted, CloseLeg;
    assert !Quiet(rules, rs, x.leg, x.exitIndex) && !Quiet(rules, rs, y.leg, y.exitIndex);
  }

  /** for the same reason, at the same price; */
  lemma OneEnd(rules: Rules, rs: seq<Reading>, x: LegResult, y: LegResult)
    requires x.leg == y.leg && x.cycleId == y.cycleId && Ends(rules, rs, x) && Ends(rules, rs, y)
    ensures x == y
  {
    OneExitBar(rules, rs, x, y);
    hide HeldUntil, HitStop, IsExhausted, CloseLeg;
  }

  /** and a leg that ends was not held to the end of the data. */
  lemma EndedIsNotHeld(rules: Rules, rs: seq<Reading>, r: LegResult)
    requires Ends(rules, rs, r)
    ensures !HeldUntil(rules, rs, r.leg, |rs|)
  {
    hide HitStop, IsExhausted, CloseLeg;
    assert !Quiet(rules, rs, r.leg, r.exitIndex);
  }

  lemma {:induction false} SameLeg(rules: Rules, rs: seq<Reading>, a: seq<LegResult>, b: seq<LegResult>, k: nat)
    requires Grammar(rules, rs, a) && Grammar(rules, rs, b) && k < |a| && k <= |b| && a[..k] == b[..k]
    ensures k < |b| && a[k] == b[k]
  {
    hide Link, Opens, Ends, HeldUntil, AtEnd;
    assert LegOk(rules, rs, a, k);
    assert Prev(a, k) == Prev(b, k) by {
      assert k > 0 ==> a[..k][k - 1] == b[..k][k - 1];
    }
    if k == |b| {
      LinkIsNoEnd(rules, rs, Prev(a, k), a[k].leg, a[k].cycleId);
    } else {
      assert LegOk(rules, rs, b, k);
      OneLink(rules, rs, Prev(a, k), a[k].leg, a[k].cycleId, b[k].leg, b[k].cycleId);
      if a[k].Closed? {
        EndedIsNotHeld(rules, rs, a[k]);
      }
      if b[k].Closed? {
        EndedIsNotHeld(rules, rs, b[k]);
      }
      if a[k].Closed? && b[k].Closed? {
        OneEnd(rules, rs, a[k], b[k]);
      }
    }
  }

  lemma {:induction false} SameLegs(rules: Rules, rs: seq<Reading>, a: seq<LegResult>, b: seq<LegResult>, k: nat)
    requires Grammar(rules, rs, a) && Grammar(rules, rs, b) && k <= |a|
    ensures k <= |b| && a[..k] == b[..k]
  {
    hide Grammar;
    if k > 0 {
      SameLegs(rules, rs, a, b, k - 1);
      SameLeg(rules, rs, a, b, k - 1);
      assert a[..k] == a[..k - 1] + [a[k - 1]] && b[..k] == b[..k - 1] + [b[k - 1]];
    }
  }

  lemma {:induction false} GrammarUnique(rules: Rules, rs: seq<Reading>, a: seq<LegResult>, b: seq<LegResult>)
    requires Grammar(rules, rs, a) && Grammar(rules, rs, b)
    ensures a == b
  {
    hide Grammar;
    SameLegs(rules, rs, a, b, |a|);
    SameLegs(rules, rs, b, a, |b|);
    assert a[..|a|] == a && b[..|b|] == b;
  }

  /** A list of legs is the reported one if and only if it obeys the grammar. */
  lemma {:induction false} CycleRunGrammar(ln: real -> real, rules: Rules, daily: seq<Candle>, trig: seq<Candle>,
                                           legs: seq<LegResult>)
    ensures var rs := Readings(ln, daily, trig);
            Grammar(rules, rs, legs) <==> legs == Report(RunTo(rules, rs, |trig|))
  {
    hide ReadingAt, RunTo, Grammar, Invariant, Report, AtrPersists;
    var rs := Readings(ln, daily, trig);
    AtrPersistsInReadings(ln, daily, trig);
    RunKeeps(rules, rs, |trig|);
    var reported := Report(RunTo(rules, rs, |trig|));
    ReportObeys(rules, rs, RunTo(rules, rs, |trig|));
    if Grammar(rules, rs, legs) {
      GrammarUnique(rules, rs, legs, reported);
    }
  }

  // ----- consequences a reader of the trade list can use

  /** A leg against the daily bias arises only from an exhaustion flip. */
  lemma CounterBiasOnlyByFlip(rules: Rules, rs: seq<Reading>, legs: seq<LegResult>, k: nat)
    requires k < |legs| && Listed(rules, rs, legs, k)
    requires legs[k].leg.direction != Along(EntryBias(rs, legs[k].leg))
    ensures k > 0 && legs[k - 1].Closed? && legs[k - 1].reason == ExhaustionFlip
  {
  }

  lemma AdjacentLegs(rules: Rules, rs: seq<Reading>, legs: seq<LegResult>, k: nat)
    requires Grammar(rules, rs, legs) && k < |legs|
    ensures legs[k].leg.entryIndex < |rs|
    ensures k == 0 ==> legs[k].cycleId == 1
    ensures k > 0 ==>
              && legs[k - 1].leg.entryIndex < |rs|
              && legs[k - 1].cycleId <= legs[k].cycleId <= legs[k - 1].cycleId + 1
              && (legs[k].cycleId == legs[k - 1].cycleId ==>
                    EntryBias(rs, legs[k].leg) == EntryBias(rs, legs[k - 1].leg))
  {
    assert LegOk(rules, rs, legs, k);
  }

  /** Cycle ids start at 1 and grow by at most one, so they leave no gaps; */
  lemma {:induction false} CycleIdsDense(rules: Rules, rs: seq<Reading>, legs: seq<LegResult>, k: nat, id: nat)
    requires Grammar(rules, rs, legs) && k < |legs|
    requires 1 <= id <= legs[k].cycleId
    ensures exists j | 0 <= j <= k :: legs[j].cycleId == id
    decreases k
  {
    hide Grammar;
    AdjacentLegs(rules, rs, legs, k);
    if id < legs[k].cycleId {
      CycleIdsDense(rules, rs, legs, k - 1, id);
    }
  }

  /** and all legs of one cycle open under one and the same daily bias. */
  lemma {:induction false} OneBiasPerCycle(rules: Rules, rs: seq<Reading>, legs: seq<LegResult>, j: nat, k: nat)
    requires Grammar(rules, rs, legs) && j <= k < |legs|
    ensures 1 <= legs[j].cycleId <= legs[k].cycleId
    ensures legs[j].leg.entryIndex < |rs| && legs[k].leg.entryIndex < |rs|
    ensures legs[j].cycleId == legs[k].cycleId ==> EntryBias(rs, legs[j].leg) == EntryBias(rs, legs[k].leg)
    decreases k
  {
    hide Grammar;
    AdjacentLegs(rules, rs, legs, k);
    if j < k {
      OneBiasPerCycle(rules, rs, legs, j, k - 1);
    } else if k > 0 {
      OneBiasPerCycle(rules, rs, legs, k - 1, k - 1);
    }
  }

  // ----- the loss bound

  lemma LegLossBound(rules: Rules, rs: seq<Reading>, r: LegResult)
    requires rules.multiplier > 0.0
    requires Opens(rules, rs, r.leg) && Ends(rules, rs, r)
    requires rs[r.exitIndex].low <= rs[r.exitIndex].close <= rs[r.exitIndex].high
    ensures Risk(r.leg) > 0.0
    ensures r.grossR >= -1.0
    ensures r.grossR == -1.0 <==> r.reason == StopHit
  {
    var offset := rules.multiplier * rs[r.leg.entryIndex].atr;
    assert offset > 0.0;
    assert Risk(r.leg) == offset;
    var gain := Signed(r.leg.direction, r.exitPrice - r.leg.entry);
    assert r.reason == StopHit ==> gain == -offset;
    assert r.reason != StopHit ==> gain > -offset;
    GainInR(gain, offset);
  }

  lemma GainInR(gain: real, risk: real)
    requires risk > 0.0
    ensures gain == -risk ==> gain / risk == -1.0
    ensures gain > -risk ==> gain / risk > -1.0
  {
    var q := gain / risk;
    assert q * risk == gain;
    assert (q + 1.0) * risk == gain + risk;
  }

  /** Each leg risks something, no resolved leg loses more than its risk before fees, and it loses
      exactly that when, and only when, its stop is hit. */
  ghost predicate LossBounded(legs: seq<LegResult>) {
    forall k | 0 <= k < |legs| ::
      && Risk(legs[k].leg) > 0.0
      && (legs[k].Closed? ==> legs[k].grossR >= -1.0 && (legs[k].grossR == -1.0 <==> legs[k].reason == StopHit))
  }

  lemma {:induction false} CycleRunLossBound(ln: real -> real, rules: Rules, daily: seq<Candle>, trig: seq<Candle>)
    requires rules.multiplier > 0.0
    requires forall i | 0 <= i < |trig| :: WellFormed(trig[i])
    ensures LossBounded(Report(RunTo(rules, Readings(ln, daily, trig), |trig|)))
  {
    hide RunTo, ReadingAt, Grammar, Report, Risk;
    var legs := Report(RunTo(rules, Readings(ln, daily, trig), |trig|));
    CycleRunGrammar(ln, rules, daily, trig, legs);
    forall k | 0 <= k < |legs|
      ensures Risk(legs[k].leg) > 0.0
      ensures legs[k].Closed? ==> legs[k].grossR >= -1.0 && (legs[k].grossR == -1.0 <==> legs[k].reason == StopHit)
    {
      LossBound(ln, rules, daily, trig, legs, k);
    }
  }

  lemma LossBound(ln: real -> real, rules: Rules, daily: seq<Candle>, trig: seq<Candle>,
                  legs: seq<LegResult>, k: nat)
    requires rules.multiplier > 0.0 && k < |legs|
    requires forall i | 0 <= i < |trig| :: WellFormed(trig[i])
    requires Grammar(rules, Readings(ln, daily, trig), legs)
    ensures Risk(legs[k].leg) > 0.0
    ensures legs[k].Closed? ==> legs[k].grossR >= -1.0 && (legs[k].grossR == -1.0 <==> legs[k].reason == StopHit)
  {
    hide FisherAt, AtrAt, DailyBiasAt;
    var rs := Readings(ln, daily, trig);
    assert LegOk(rules, rs, legs, k);
    if legs[k].Closed? {
      hide Grammar;
      assert WellFormed(trig[legs[k].exitIndex]);
      LegLossBound(rules, rs, legs[k]);
    } else {
      hide Grammar;
      assert rules.multiplier * rs[legs[k].leg.entryIndex].atr > 0.0;
    }
  }
}
