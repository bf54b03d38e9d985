/** No lookahead: a cycle run over a prefix of the bars is the prefix of the whole run
    (backtest.py, run_fisher_cycle_backtest). */
module CycleCausality {
  import opened Market
  import opened FisherCycle
  import opened Trigger1H
  import opened Atr
  import opened CycleMachine

  /** The legs already resolved when bar m has not yet been seen. */
  function ResolvedBefore(legs: seq<LegResult>, m: int): seq<LegResult> {
    if legs == [] then [] else
    var last := legs[|legs| - 1];
    ResolvedBefore(legs[..|legs| - 1], m) + if last.Closed? && last.exitIndex < m then [last] else []
  }

  /** Nothing a bar reads depends on later bars, nor on daily bars closing after the prefix. */
  lemma {:induction false} ReadingPrefix(ln: real -> real, daily: seq<Candle>, daily': seq<Candle>,
                                         trig: seq<Candle>, m: nat, i: nat)
    requires i < m <= |trig| && Chronological(trig[..m])
    requires Visible(daily, trig[m - 1].closeTime) == Visible(daily', trig[m - 1].closeTime)
    ensures ReadingAt(ln, daily', trig[..m], i) == ReadingAt(ln, daily, trig, i)
  {
    hide FisherCycle.DailyBiasAt;
    FilterPrefix(ln, trig, m, FISHER_PERIOD, i + 1);
    AtrPrefix(trig, m, ATR_PERIOD, i);
    SameDailyBias(daily, daily', trig[i].closeTime, trig[m - 1].closeTime) by {
      if i < m - 1 {
        assert trig[..m][i].closeTime <= trig[..m][m - 1].closeTime;
      }
    }
  }

  lemma SameDailyBias(daily: seq<Candle>, daily': seq<Candle>, ts: int, later: int)
    requires ts <= later && Visible(daily, later) == Visible(daily', later)
    ensures DailyBiasAt(daily, ts) == DailyBiasAt(daily', ts)
  {
    VisibleEarlier(daily, ts, later);
    VisibleEarlier(daily', ts, later);
  }

  lemma {:induction false} RunPrefix(rules: Rules, rs: seq<Reading>, rs': seq<Reading>, n: nat)
    requires n <= |rs| && n <= |rs'|
    requires forall i | 0 <= i < n :: rs[i] == rs'[i]
    ensures RunTo(rules, rs, n) == RunTo(rules, rs', n)
  {
    if n > WARMUP_TRIGGER_BARS {
      RunPrefix(rules, rs, rs', n - 1);
    }
  }

  /** `after` continues `before`: resolved legs stay, later ones exit at or after bar n, and
      the open leg is the next one listed. */
  ghost predicate Continues(before: Machine, after: Machine, n: nat) {
    && |before.legs| <= |after.legs|
    && after.legs[..|before.legs|] == before.legs
    && (forall k | |before.legs| <= k < |after.legs| :: after.legs[k].Closed? && after.legs[k].exitIndex >= n)
    && (before.leg.Some? ==>
          |before.legs| < |Report(after)|
          && Report(after)[|before.legs|].leg == before.leg.value
          && Report(after)[|before.legs|].cycleId == before.cycleId)
  }

  lemma StepContinues(rules: Rules, r: Reading, i: nat, before: Machine, m: Machine, n: nat)
    requires Continues(before, m, n) && n <= i
    ensures Continues(before, Step(rules, r, i, m), n)
  {
    var m' := Step(rules, r, i, m);
    assert m'.legs[..|before.legs|] == m.legs[..|before.legs|];
  }

  lemma ContinuesItself(m: Machine, n: nat)
    ensures Continues(m, m, n)
  {
  }

  lemma {:induction false} RunContinues(rules: Rules, rs: seq<Reading>, n: nat, n': nat)
    requires n <= n' <= |rs|
    ensures Continues(RunTo(rules, rs, n), RunTo(rules, rs, n'), n)
    decreases n'
  {
    hide Step, Continues;
    ContinuesItself(RunTo(rules, rs, n), n);
    if n < n' {
      RunContinues(rules, rs, n, n' - 1);
      if n' > WARMUP_TRIGGER_BARS {
        StepContinues(rules, rs[n' - 1], n' - 1, RunTo(rules, rs, n), RunTo(rules, rs, n' - 1), n);
      }
    }
  }

  ghost predicate AllClosedBefore(legs: seq<LegResult>, n: nat) {
    forall k | 0 <= k < |legs| :: legs[k].Closed? && legs[k].exitIndex < n
  }

  lemma {:induction false} RunClosedBefore(rules: Rules, rs: seq<Reading>, n: nat)
    requires n <= |rs|
    ensures AllClosedBefore(RunTo(rules, rs, n).legs, n)
  {
    if n > WARMUP_TRIGGER_BARS {
      RunClosedBefore(rules, rs, n - 1);
    }
  }

  lemma {:induction false} ResolvedPart(legs: seq<LegResult>, k: nat, n: nat)
    requires k <= |legs| && AllClosedBefore(legs[..k], n)
    requires forall j | k <= j < |legs| :: legs[j].Closed? ==> legs[j].exitIndex >= n
    ensures ResolvedBefore(legs, n) == legs[..k]
    decreases |legs|
  {
    if legs != [] {
      var init := legs[..|legs| - 1];
      if k < |legs| {
        assert init[..k] == legs[..k];
        ResolvedPart(init, k, n);
      } else {
        assert legs[..k] == legs && init[..k - 1] == init;
        forall j | 0 <= j < k - 1 ensures init[j].Closed? && init[j].exitIndex < n {
          assert init[j] == legs[..k][j];
        }
        assert legs[..k][k - 1].Closed?;
        ResolvedPart(init, k - 1, n);
      }
    }
  }

  /** Running the machine on the first m bars, with daily bars that differ from the real ones
      only after bar m-1 has closed, gives exactly the legs of the full run that resolve within
      those bars; and a leg still open there is the next leg of the full run. */
  lemma {:induction false} NoLookahead(ln: real -> real, rules: Rules, daily: seq<Candle>, daily': seq<Candle>,
                                       trig: seq<Candle>, m: nat)
    requires 0 < m <= |trig| && Chronological(trig[..m])
    requires Visible(daily, trig[m - 1].closeTime) == Visible(daily', trig[m - 1].closeTime)
    ensures var full := Report(RunTo(rules, Readings(ln, daily, trig), |trig|));
            var cut := RunTo(rules, Readings(ln, daily', trig[..m]), m);
            && ResolvedBefore(full, m) == cut.legs
            && (cut.leg.Some? ==> |cut.legs| < |full|
                                  && full[|cut.legs|].leg == cut.leg.value
                                  && full[|cut.legs|].cycleId == cut.cycleId)
  {
    hide Step, ReadingAt, Visible;
    var rs, rs' := Readings(ln, daily, trig), Readings(ln, daily', trig[..m]);
    forall i | 0 <= i < m ensures rs[i] == rs'[i] {
      ReadingPrefix(ln, daily, daily', trig, m, i);
    }
    RunPrefix(rules, rs, rs', m);
    RunContinues(rules, rs, m, |trig|);
    RunClosedBefore(rules, rs, m);
    var end := RunTo(rules, rs, |trig|);
    var k := |RunTo(rules, rs, m).legs|;
    assert Report(end)[..k] == end.legs[..k];
    ResolvedPart(Report(end), k, m);
  }
}
