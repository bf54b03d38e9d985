/** backtest.py, simulate_outcome: a trade walked to its stop, its target or a 4H exhaustion
    crossing. The moving cursor over the 4H series is measured against a statement that has none. */
module Outcome {
  import opened Market
  import opened Reals
  import opened Signals

  /** A closed 4H bar and its Fisher value. */
  datatype FisherPoint = FisherPoint(closeTime: int, fisher: real)

  datatype ExitReason = StopHit | TargetHit | FisherExhaustion

  datatype Trade =
    | Resolved(signal: Signal, entryIndex: nat, exitIndex: nat, reason: ExitReason,
               exitPx: real, grossR: real, netR: real)
    | Unresolved(signal: Signal, entryIndex: nat, barsHeld: int)

  function Sign(d: Direction): real {
    if d == Long then 1.0 else -1.0
  }

  function RiskOf(s: Signal): real {
    Abs(s.entry - s.stop)
  }

  predicate TouchesStop(s: Signal, c: Candle) {
    if s.direction == Long then c.low <= s.stop else c.high >= s.stop
  }

  predicate TouchesTarget(s: Signal, c: Candle) {
    if s.direction == Long then c.high >= s.target else c.low <= s.target
  }

  /** Extended territory in the trade's favour. */
  predicate InFavor(d: Direction, f: real, threshold: real) {
    if d == Long then f >= threshold else f <= -threshold
  }

  /** The value before the first bar counts as zero. */
  predicate Crossing(d: Direction, series: seq<FisherPoint>, threshold: real, k: nat)
    requires k < |series|
  {
    && InFavor(d, series[k].fisher, threshold)
    && !InFavor(d, if k >= 1 then series[k - 1].fisher else 0.0, threshold)
  }

  /** A crossing on a 4H bar that closes in (after, upTo]. */
  ghost predicate CrossesWithin(d: Direction, series: seq<FisherPoint>, threshold: real, after: int, upTo: int) {
    exists k | 0 <= k < |series| :: after < series[k].closeTime <= upTo && Crossing(d, series, threshold, k)
  }

  ghost predicate AscendingSeries(series: seq<FisherPoint>) {
    forall i, j | 0 <= i < j < |series| :: series[i].closeTime <= series[j].closeTime
  }

  /** Bar j ends the trade. With the exhaustion exit off the series is empty. */
  ghost predicate Ends(s: Signal, series: seq<FisherPoint>, threshold: real, cs: seq<Candle>, j: int)
    requires 1 <= j < |cs|
  {
    || TouchesStop(s, cs[j])
    || TouchesTarget(s, cs[j])
    || CrossesWithin(s.direction, series, threshold, cs[j - 1].closeTime, cs[j].closeTime)
  }

  /** How bar j ends it: stop before target before exhaustion. */
  function ReasonAt(s: Signal, c: Candle): ExitReason {
    if TouchesStop(s, c) then StopHit else if TouchesTarget(s, c) then TargetHit else FisherExhaustion
  }

  function PriceAt(s: Signal, c: Candle): real {
    match ReasonAt(s, c)
    case StopHit => s.stop
    case TargetHit => s.target
    case FisherExhaustion => c.close
  }

  function CloseOut(s: Signal, entryIndex: nat, j: nat, reason: ExitReason, px: real): Trade
    requires RiskOf(s) != 0.0
  {
    var gross := Sign(s.direction) * (px - s.entry) / RiskOf(s);
    Resolved(s, entryIndex, j, reason, px, gross, gross - (s.entry + px) * TAKER_FEE / RiskOf(s))
  }

  /** No bar strictly between entry and j ends the trade. */
  ghost predicate RunsUntil(s: Signal, series: seq<FisherPoint>, threshold: real, cs: seq<Candle>,
                            entryIndex: nat, j: int)
    requires j <= |cs|
  {
    forall i | entryIndex < i < j :: !Ends(s, series, threshold, cs, i)
  }

  /** The declarative rule: the trade closes at the first bar after entry that ends it, by that
      bar's reason and price; it stays open if there is none. */
  ghost predicate IsOutcome(s: Signal, series: seq<FisherPoint>, threshold: real, cs: seq<Candle>,
                            entryIndex: nat, t: Trade)
  {
    match t
    case Resolved(_, _, j, reason, px, _, _) =>
      && RiskOf(s) != 0.0
      && entryIndex < j < |cs|
      && RunsUntil(s, series, threshold, cs, entryIndex, j)
      && Ends(s, series, threshold, cs, j)
      && t == CloseOut(s, entryIndex, j, ReasonAt(s, cs[j]), PriceAt(s, cs[j]))
    case Unresolved(_, _, _) =>
      && t == Unresolved(s, entryIndex, |cs| - 1 - entryIndex)
      && RunsUntil(s, series, threshold, cs, entryIndex, |cs|)
  }

  /** The cursor stands at the first 4H bar not yet closed at time t. */
  ghost predicate CursorAt(series: seq<FisherPoint>, k: nat, t: int) {
    && k <= |series|
    && (forall i | 0 <= i < k :: series[i].closeTime <= t)
    && (forall i | k <= i < |series| :: series[i].closeTime > t)
  }

  method AdvanceFisher(d: Direction, series: seq<FisherPoint>, threshold: real, start: nat, after: int, upTo: int)
    returns (k: nat, crossed: bool)
    requires AscendingSeries(series) && CursorAt(series, start, after) && after <= upTo
    ensures CursorAt(series, k, upTo)
    ensures crossed <==> CrossesWithin(d, series, threshold, after, upTo)
  {
    k, crossed := start, false;
    while k < |series| && series[k].closeTime <= upTo
      invariant start <= k <= |series|
      invariant forall i | 0 <= i < k :: series[i].closeTime <= upTo
      invariant crossed <==> exists i | start <= i < k :: Crossing(d, series, threshold, i)
    {
      if Crossing(d, series, threshold, k) {
        crossed := true;
      }
      k := k + 1;
    }
  }

  method FirstUnclosed(series: seq<FisherPoint>, t: int) returns (k: nat)
    requires AscendingSeries(series)
    ensures CursorAt(series, k, t)
  {
    k := 0;
    while k < |series| && series[k].closeTime <= t
      invariant k <= |series|
      invariant forall i | 0 <= i < k :: series[i].closeTime <= t
    {
      k := k + 1;
    }
  }

  lemma EndsEarly(s: Signal, series: seq<FisherPoint>, threshold: real, cs: seq<Candle>, entryIndex: nat, j: nat)
    requires entryIndex < j < |cs| && Ends(s, series, threshold, cs, j)
    ensures !RunsUntil(s, series, threshold, cs, entryIndex, |cs|)
  {
  }

  /** Raises without a series when the exhaustion exit is on, and on a resolved trade whose stop
      is its entry (a division by zero). */
  method SimulateOutcome(cs: seq<Candle>, entryIndex: nat, s: Signal, exhaustionExit: bool,
                         series: seq<FisherPoint>, threshold: real) returns (r: Result<Trade>)
    requires entryIndex < |cs| && Chronological(cs) && AscendingSeries(series)
    ensures var watched := if exhaustionExit then series else [];
            && (r.Ok? ==> IsOutcome(s, watched, threshold, cs, entryIndex, r.value))
            && (r.Err? <==> (exhaustionExit && series == [])
                            || (RiskOf(s) == 0.0 && !RunsUntil(s, watched, threshold, cs, entryIndex, |cs|)))
  {
    if exhaustionExit && series == [] {
      return Err("fisher4h_exit requires fisher4h_series");
    }
    hide CrossesWithin, CursorAt, RunsUntil, RiskOf, CloseOut;
    var watched := if exhaustionExit then series else [];
    var k := FirstUnclosed(watched, cs[entryIndex].closeTime);
    var j := entryIndex + 1;
    while j < |cs|
      invariant entryIndex < j <= |cs|
      invariant CursorAt(watched, k, cs[j - 1].closeTime)
      invariant RunsUntil(s, watched, threshold, cs, entryIndex, j)
    {
      var c := cs[j];
      if TouchesStop(s, c) || TouchesTarget(s, c) {
        if RiskOf(s) == 0.0 {
          EndsEarly(s, watched, threshold, cs, entryIndex, j);
          return Err("division by zero");
        }
        return Ok(CloseOut(s, entryIndex, j, if TouchesStop(s, c) then StopHit else TargetHit,
                           if TouchesStop(s, c) then s.stop else s.target));
      }
      var crossed;
      k, crossed := AdvanceFisher(s.direction, watched, threshold, k, cs[j - 1].closeTime, c.closeTime);
      if crossed {
        if RiskOf(s) == 0.0 {
          EndsEarly(s, watched, threshold, cs, entryIndex, j);
          return Err("division by zero");
        }
        return Ok(CloseOut(s, entryIndex, j, FisherExhaustion, c.close));
      }
      j := j + 1;
    }
    r := Ok(Unresolved(s, entryIndex, |cs| - 1 - entryIndex));
  }

  /** The rule leaves no choice: two outcomes of one trade are the same. */
  lemma OutcomeUnique(s: Signal, series: seq<FisherPoint>, threshold: real, cs: seq<Candle>, entryIndex: nat,
                      t: Trade, u: Trade)
    requires IsOutcome(s, series, threshold, cs, entryIndex, t) && IsOutcome(s, series, threshold, cs, entryIndex, u)
    ensures t == u
  {
    hide Ends;
    if t.Resolved? && u.Resolved? {
      assert t.exitIndex == u.exitIndex;
    }
  }

  /** A zone occupied at entry cannot fire before it is left: an exhaustion exit needs a crossing
      bar k closed after entry, and if the zone was occupied by bar e, the last closed by entry,
      some bar strictly between e and k lies outside it. */
  lemma OccupiedZoneMustBeLeft(s: Signal, series: seq<FisherPoint>, threshold: real, cs: seq<Candle>,
                               entryIndex: nat, t: Trade, e: nat) returns (k: nat)
    requires entryIndex < |cs| && Chronological(cs) && AscendingSeries(series)
    requires IsOutcome(s, series, threshold, cs, entryIndex, t)
    requires t.Resolved? && t.reason == FisherExhaustion
    requires e < |series| && CursorAt(series, e + 1, cs[entryIndex].closeTime)
    requires InFavor(s.direction, series[e].fisher, threshold)
    ensures e < k < |series| && Crossing(s.direction, series, threshold, k)
    ensures cs[entryIndex].closeTime < series[k].closeTime <= cs[t.exitIndex].closeTime
    ensures e < k - 1 && !InFavor(s.direction, series[k - 1].fisher, threshold)
  {
    var j := t.exitIndex;
    assert !TouchesStop(s, cs[j]) && !TouchesTarget(s, cs[j]);
    k :| 0 <= k < |series| && cs[j - 1].closeTime < series[k].closeTime <= cs[j].closeTime
         && Crossing(s.direction, series, threshold, k);
    assert cs[entryIndex].closeTime <= cs[j - 1].closeTime;
  }

  /** A stop costs exactly one R before fees and a target pays exactly its reward/risk, when the
      stop is on the losing and the target on the winning side. */
  lemma GrossOfExit(s: Signal, series: seq<FisherPoint>, threshold: real, cs: seq<Candle>, entryIndex: nat, t: Trade)
    requires IsOutcome(s, series, threshold, cs, entryIndex, t) && t.Resolved?
    requires Beyond(s.direction, s.entry, s.stop) && Beyond(s.direction, s.target, s.entry)
    requires s.rewardRisk * RiskOf(s) == Abs(s.target - s.entry)
    ensures t.reason == StopHit ==> t.grossR == -1.0
    ensures t.reason == TargetHit ==> t.grossR == s.rewardRisk
  {
    hide RunsUntil, Ends, TouchesStop, TouchesTarget;
    var g := t.grossR;
    assert g * RiskOf(s) == Sign(s.direction) * (t.exitPx - s.entry);
    if t.reason == StopHit {
      Cancel(g, -1.0, RiskOf(s));
    } else if t.reason == TargetHit {
      Cancel(g, s.rewardRisk, RiskOf(s));
    }
  }

}
