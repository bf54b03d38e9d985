/** Whole runs of the breakout walk: no lookahead, and what every trade it closes satisfies. */
module BreakoutRuns {
  import opened Market
  import opened Reals
  import opened Bias4H
  import opened Atr
  import opened Trigger1H
  import opened FisherCycle
  import opened SwingLevels
  import opened Breakout

  // ----- causality of one bar

  lemma {:induction false} SmaPrefix(xs: seq<real>, m: nat, period: nat, i: nat)
    requires 1 <= period && i < m <= |xs|
    ensures SmaAt(xs[..m], period, i) == SmaAt(xs, period, i)
  {
    if i >= period - 1 {
      TotalPrefix(xs, m, i + 1 - period, i + 1);
    }
  }

  lemma VolumesPrefix(cs: seq<Candle>, m: nat)
    requires m <= |cs|
    ensures Volumes(cs[..m]) == Volumes(cs)[..m] && Closes(cs[..m]) == Closes(cs)[..m]
  {
  }

  lemma {:induction false} ScenePrefix(signs: seq<int>, closeMs: seq<int>, signs': seq<int>, closeMs': seq<int>,
                                       trig: seq<Candle>, m: nat, i: nat)
    requires |signs| == |closeMs| && |signs'| == |closeMs'| && i < m <= |trig|
    requires BiasSignAt(signs, closeMs, trig[i].closeTime) == BiasSignAt(signs', closeMs', trig[i].closeTime)
    ensures SceneAt(signs', closeMs', trig[..m], i) == SceneAt(signs, closeMs, trig, i)
  {
    hide AtrAt, SmaAt, BiasSignAt, Swings, PricesOf, Volumes;
    AtrPrefix(trig, m, ATR_PERIOD, i);
    VolumesPrefix(trig, m);
    SmaPrefix(Volumes(trig), m, VOL_AVG_WINDOW, i);
    assert trig[..m][..i + 1] == trig[..i + 1];
  }

  lemma {:induction false} SignPrefix(four: seq<Candle>, how: BiasMethod, n: nat, j: nat)
    requires j < n <= |four|
    ensures SignAt(four[..n], how, j) == SignAt(four, how, j)
  {
    hide ComputeBias, SmaAt;
    if how == SmaBias {
      VolumesPrefix(four, n);
      SmaPrefix(Closes(four), n, SMA_WINDOW, j);
    } else if j >= 30 {
      var start := if j + 1 <= BIAS_LOOKBACK_4H then 0 else j + 1 - BIAS_LOOKBACK_4H;
      assert four[..n][start..j + 1] == four[start..j + 1];
    }
  }

  function Signs(four: seq<Candle>, how: BiasMethod): (r: seq<int>)
    ensures |r| == |four| && forall j | 0 <= j < |four| :: r[j] == SignAt(four, how, j)
  {
    seq(|four|, j requires 0 <= j < |four| => SignAt(four, how, j))
  }

  function CloseTimes(four: seq<Candle>): (r: seq<int>)
    ensures |r| == |four| && forall j | 0 <= j < |four| :: r[j] == four[j].closeTime
  {
    seq(|four|, j requires 0 <= j < |four| => four[j].closeTime)
  }

  /** Bisecting the close times of a chronological list counts the visible bars. */
  lemma {:induction false} BisectCountsVisible(four: seq<Candle>, t: int)
    requires Chronological(four)
    ensures Visible(four, t) == four[..BisectRight(CloseTimes(four), t)]
  {
    var k := BisectRight(CloseTimes(four), t);
    forall j | k <= j < |four| ensures four[j].closeTime > t {
      assert CloseTimes(four)[k] == four[k].closeTime;
    }
    forall j | 0 <= j < k ensures four[j].closeTime <= t {
      assert CloseTimes(four)[j] <= t;
    }
    VisibleSplit(four, k, t);
  }

  lemma {:induction false} VisibleSplit(four: seq<Candle>, k: nat, t: int)
    requires k <= |four|
    requires forall j | 0 <= j < k :: four[j].closeTime <= t
    requires forall j | k <= j < |four| :: four[j].closeTime > t
    ensures Visible(four, t) == four[..k]
    decreases |four|
  {
    if four != [] {
      var init := four[..|four| - 1];
      if k == |four| {
        VisibleSplit(init, k - 1, t);
        assert init[..k - 1] == init && four[..k] == init + [four[|four| - 1]];
      } else {
        VisibleSplit(init, k, t);
        assert init[..k] == four[..k];
      }
    }
  }

  /** The sign read at time t is computed from the bars visible at t alone. */
  lemma {:induction false} SignReadsVisible(four: seq<Candle>, how: BiasMethod, t: int)
    requires Chronological(four)
    ensures BiasSignAt(Signs(four, how), CloseTimes(four), t)
            == var v := Visible(four, t); if v == [] then 0 else SignAt(v, how, |v| - 1)
  {
    hide SignAt, Visible;
    BisectCountsVisible(four, t);
    var k := BisectRight(CloseTimes(four), t);
    if k > 0 {
      SignPrefix(four, how, k, k - 1);
    }
  }

  // ----- runs

  lemma {:induction false} RunPrefix(cell: Cell, ss: seq<Scene>, ss': seq<Scene>, n: nat)
    requires n <= |ss| && n <= |ss'|
    requires forall i | 0 <= i < n :: ss[i] == ss'[i]
    ensures RunTo(cell, ss, n) == RunTo(cell, ss', n)
  {
    hide StepBook;
    if n > BREAKOUT_WARMUP {
      RunPrefix(cell, ss, ss', n - 1);
    }
  }

  function ExitedBefore(cts: seq<ClosedTrade>, n: nat): seq<ClosedTrade> {
    if cts == [] then [] else
    var last := cts[|cts| - 1];
    ExitedBefore(cts[..|cts| - 1], n) + if last.exitIndex < n then [last] else []
  }

  lemma {:induction false} AllExited(cts: seq<ClosedTrade>, n: nat)
    requires forall k | 0 <= k < |cts| :: cts[k].exitIndex < n
    ensures ExitedBefore(cts, n) == cts
  {
    if cts != [] {
      AllExited(cts[..|cts| - 1], n);
    }
  }

  lemma {:induction false} RunExited(cell: Cell, ss: seq<Scene>, n: nat)
    requires n <= |ss|
    ensures forall k | 0 <= k < |RunTo(cell, ss, n).closed| :: RunTo(cell, ss, n).closed[k].exitIndex < n
  {
    hide Entry, HitStop, HitTarget;
    if n > BREAKOUT_WARMUP {
      RunExited(cell, ss, n - 1);
    }
  }

  /** Later bars only append trades that exit on them. */
  lemma {:induction false} RunGrows(cell: Cell, ss: seq<Scene>, m: nat, n: nat)
    requires m <= n <= |ss|
    ensures ExitedBefore(RunTo(cell, ss, n).closed, m) == RunTo(cell, ss, m).closed
    decreases n
  {
    hide Entry, HitStop, HitTarget, RunTo;
    if n == m {
      RunExited(cell, ss, m);
      AllExited(RunTo(cell, ss, m).closed, m);
    } else {
      RunGrows(cell, ss, m, n - 1);
      RunLast(cell, ss, n);
    }
  }

  lemma RunLast(cell: Cell, ss: seq<Scene>, n: nat)
    requires 0 < n <= |ss|
    ensures RunTo(cell, ss, n) == RunTo(cell, ss, n - 1)
            || RunTo(cell, ss, n) == StepBook(cell, ss[n - 1], n - 1, RunTo(cell, ss, n - 1))
  {
  }

  /** The closed trades of any prefix are exactly the closed trades of the full run that exit
      within it, even if the 4H series differs after the prefix's last close. */
  lemma {:induction false} PrefixTrades(cell: Cell, how: BiasMethod, four: seq<Candle>, four': seq<Candle>,
                                        trig: seq<Candle>, m: nat)
    requires 0 < m <= |trig| && Chronological(trig[..m]) && Chronological(four) && Chronological(four')
    requires Visible(four, trig[m - 1].closeTime) == Visible(four', trig[m - 1].closeTime)
    ensures var full := RunTo(cell, Scenes(Signs(four, how), CloseTimes(four), trig), |trig|);
            var cut := RunTo(cell, Scenes(Signs(four', how), CloseTimes(four'), trig[..m]), m);
            cut.closed == ExitedBefore(full.closed, m)
  {
    hide SceneAt, SignAt, Visible, RunTo, BiasSignAt;
    var ss := Scenes(Signs(four, how), CloseTimes(four), trig);
    var ss' := Scenes(Signs(four', how), CloseTimes(four'), trig[..m]);
    forall i | 0 <= i < m ensures ss[i] == ss'[i] {
      var t := trig[i].closeTime;
      assert trig[..m][i].closeTime <= trig[..m][m - 1].closeTime;
      VisibleEarlier(four, t, trig[m - 1].closeTime);
      VisibleEarlier(four', t, trig[m - 1].closeTime);
      SignReadsVisible(four, how, t);
      SignReadsVisible(four', how, t);
      ScenePrefix(Signs(four, how), CloseTimes(four), Signs(four', how), CloseTimes(four'), trig, m, i);
    }
    RunPrefix(cell, ss, ss', m);
    RunGrows(cell, ss, m, |trig|);
  }

  // ----- what every trade satisfies

  /** Distance from entry to stop, in price. */
  function Risk(t: Trade): real {
    if t.side == Long then t.entry - t.stop else t.stop - t.entry
  }

  function Reward(t: Trade): real {
    if t.side == Long then t.target - t.entry else t.entry - t.target
  }

  /** Risk is positive, the stop lies beyond the broken level, the target pays at least 2R
      (exactly 2R under the fixed rule). */
  predicate SoundTrade(rule: TargetRule, t: Trade) {
    && Risk(t) > 0.0 && t.stopDist == Ratio(Risk(t), t.entry)
    && (if t.side == Long then t.stop < t.level < t.entry else t.entry < t.level < t.stop)
    && Reward(t) >= 2.0 * Risk(t) && (rule == TwoR ==> Reward(t) == 2.0 * Risk(t))
  }

  lemma RatioAtLeast(x: real, d: real, k: real)
    requires d > 0.0 && !(Ratio(x, d) < k)
    ensures x >= k * d
  {
    var q := x / d;
    assert q * d == x;
    assert (q - k) * d >= 0.0;
  }

  lemma RatioOrder(x: real, d: real, k: real)
    requires d > 0.0
    ensures x >= k * d ==> Ratio(x, d) >= k
    ensures x == k * d ==> Ratio(x, d) == k
  {
    var q := x / d;
    assert q * d == x;
    if q < k {
      assert (k - q) * d > 0.0;
    }
    if x == k * d {
      Cancel(q, k, d);
    }
  }

  lemma {:induction false} EntrySound(cell: Cell, s: Scene, i: nat)
    ensures var t := Entry(cell, s, i);
            t.Some? ==> t.value.entryIndex == i && t.value.mae == 0.0 && t.value.entry == s.c.close
                        && SoundTrade(cell.rule, t.value)
  {
    hide Ratio;
    var t := Entry(cell, s, i);
    if t.Some? {
      var t := t.value;
      var dist := Risk(t);
      LowestAboveIs(s.highs, s.c.close);
      HighestBelowIs(s.lows, s.c.close);
      if cell.rule == StructuralTarget {
        RatioAtLeast(Abs(t.target - s.c.close), dist, MIN_RR);
      }
    }
  }

  ghost predicate Untouched(t: Trade, ss: seq<Scene>, lo: int, hi: int)
    requires 0 <= lo && hi <= |ss|
  {
    forall j | lo <= j < hi :: !HitStop(t, ss[j].c) && !HitTarget(t, ss[j].c)
  }

  /** The worst adverse excursion on bars lo..hi-1, zero if none was adverse. */
  function Worst(side: Direction, entry: real, ss: seq<Scene>, lo: nat, hi: nat): real
    requires hi <= |ss|
  {
    if hi <= lo then 0.0 else Min(Worst(side, entry, ss, lo, hi - 1), Adverse(side, entry, ss[hi - 1].c))
  }

  ghost predicate OpenOk(rule: TargetRule, t: Trade, ss: seq<Scene>, n: nat)
    requires n <= |ss|
  {
    && t.entryIndex < n
    && SoundTrade(rule, t)
    && t.entry == ss[t.entryIndex].c.close
    && Untouched(t, ss, t.entryIndex + 1, n)
    && t.mae == Worst(t.side, t.entry, ss, t.entryIndex + 1, n)
  }

  /** The trade left on the first bar after its entry that touched stop or target, by the stop
      if both were touched, at that very price, with its excursion exactly recorded. */
  ghost predicate ClosedOk(rule: TargetRule, ct: ClosedTrade, ss: seq<Scene>, n: nat)
    requires n <= |ss|
  {
    var t, x := ct.trade, ct.exitIndex;
    && t.entryIndex < x < n
    && SoundTrade(rule, t)
    && t.entry == ss[t.entryIndex].c.close
    && Untouched(t, ss, t.entryIndex + 1, x)
    && (ct.reason == StopExit <==> HitStop(t, ss[x].c))
    && (ct.reason == TargetExit ==> HitTarget(t, ss[x].c))
    && ct == CloseTrade(t, x, if ct.reason == StopExit then t.stop else t.target, ct.reason)
    && t.mae == Worst(t.side, t.entry, ss, t.entryIndex + 1, x + 1)
  }

  ghost predicate BookOk(rule: TargetRule, book: Book, ss: seq<Scene>, n: nat)
    requires n <= |ss|
  {
    && (forall k | 0 <= k < |book.closed| :: ClosedOk(rule, book.closed[k], ss, n))
    && (forall k | 0 < k < |book.closed| :: book.closed[k - 1].exitIndex < book.closed[k].trade.entryIndex)
    && (book.open.Some? ==> OpenOk(rule, book.open.value, ss, n))
    && (book.open.Some? && book.closed != [] ==>
          book.closed[|book.closed| - 1].exitIndex < book.open.value.entryIndex)
  }

  lemma {:induction false} MarkedOk(rule: TargetRule, t: Trade, ss: seq<Scene>, n: nat)
    requires n < |ss| && OpenOk(rule, t, ss, n)
    ensures var t' := t.(mae := Min(t.mae, Adverse(t.side, t.entry, ss[n].c)));
            && (HitStop(t', ss[n].c) ==> ClosedOk(rule, CloseTrade(t', n, t'.stop, StopExit), ss, n + 1))
            && (!HitStop(t', ss[n].c) && HitTarget(t', ss[n].c) ==>
                  ClosedOk(rule, CloseTrade(t', n, t'.target, TargetExit), ss, n + 1))
            && (!HitStop(t', ss[n].c) && !HitTarget(t', ss[n].c) ==> OpenOk(rule, t', ss, n + 1))
  {
    hide Ratio, Adverse;
  }

  lemma ClosedLater(rule: TargetRule, ct: ClosedTrade, ss: seq<Scene>, n: nat)
    requires n < |ss| && ClosedOk(rule, ct, ss, n)
    ensures ClosedOk(rule, ct, ss, n + 1)
  {
  }

  lemma {:induction false} OpenedOk(cell: Cell, ss: seq<Scene>, n: nat)
    requires n < |ss|
    ensures var t := Entry(cell, ss[n], n);
            t.Some? ==> t.value.entryIndex == n && OpenOk(cell.rule, t.value, ss, n + 1)
  {
    hide SoundTrade, Entry;
    EntrySound(cell, ss[n], n);
  }

  lemma {:induction false} StepOk(cell: Cell, ss: seq<Scene>, n: nat, book: Book)
    requires n < |ss| && BookOk(cell.rule, book, ss, n)
    ensures BookOk(cell.rule, StepBook(cell, ss[n], n, book), ss, n + 1)
  {
    hide ClosedOk, OpenOk, Entry, HitStop, HitTarget, Adverse;
    forall k | 0 <= k < |book.closed| ensures ClosedOk(cell.rule, book.closed[k], ss, n + 1) {
      ClosedLater(cell.rule, book.closed[k], ss, n);
    }
    ExitsBefore(cell.rule, book, ss, n);
    if book.open.Some? {
      MarkedOk(cell.rule, book.open.value, ss, n);
    } else {
      OpenedOk(cell, ss, n);
    }
  }

  lemma ExitsBefore(rule: TargetRule, book: Book, ss: seq<Scene>, n: nat)
    requires n <= |ss| && BookOk(rule, book, ss, n)
    ensures forall k | 0 <= k < |book.closed| :: book.closed[k].exitIndex < n
  {
  }

  /** Every run: trades never overlap, and each closed one is ClosedOk. */
  lemma {:induction false} EveryTrade(cell: Cell, ss: seq<Scene>, n: nat)
    requires n <= |ss|
    ensures BookOk(cell.rule, RunTo(cell, ss, n), ss, n)
  {
    hide BookOk, StepBook;
    if n <= BREAKOUT_WARMUP {
      EmptyOk(cell.rule, ss, n);
    } else {
      EveryTrade(cell, ss, n - 1);
      StepOk(cell, ss, n - 1, RunTo(cell, ss, n - 1));
    }
  }

  lemma EmptyOk(rule: TargetRule, ss: seq<Scene>, n: nat)
    requires n <= |ss|
    ensures BookOk(rule, Book([], None), ss, n)
  {
  }

  // ----- the R multiple

  lemma QuotientR(e: real, risk: real, gain: real, fee: real)
    requires e != 0.0 && risk != 0.0
    ensures Ratio(risk, e) != 0.0
    ensures Ratio(Ratio(gain, e) - fee, Ratio(risk, e)) == Ratio(gain, risk) - Ratio(fee, Ratio(risk, e))
  {
    var d, g := risk / e, gain / e;
    assert d * e == risk && g * e == gain;
    var q, k, f := (g - fee) / d, gain / risk, fee / d;
    assert q * d == g - fee && k * risk == gain && f * d == fee;
    assert ((k - f) * d) * e == k * risk - fee * e;
    assert (q * d) * e == gain - fee * e;
    Cancel(q * d, (k - f) * d, e);
    Cancel(q, k - f, d);
  }

  /** Whatever the prices, a stop costs one R plus fees and a target pays at least two R less
      fees, exactly two under the fixed rule. */
  lemma {:induction false} TradeR(rule: TargetRule, ct: ClosedTrade, ss: seq<Scene>, n: nat)
    requires n <= |ss| && ClosedOk(rule, ct, ss, n) && ct.trade.entry != 0.0
    ensures var fees := Ratio(2.0 * TAKER_FEE, ct.trade.stopDist);
            && (ct.reason == StopExit ==> ct.r == -1.0 - fees)
            && (ct.reason == TargetExit ==> ct.r >= 2.0 - fees)
            && (ct.reason == TargetExit && rule == TwoR ==> ct.r == 2.0 - fees)
  {
    hide Untouched, Worst, HitStop, HitTarget, Ratio;
    var t := ct.trade;
    var gain := if t.side == Long then ct.exitPx - t.entry else t.entry - ct.exitPx;
    GrossOf(t.entry, ct.exitPx);
    QuotientR(t.entry, Risk(t), gain, 2.0 * TAKER_FEE);
    RatioOrder(gain, Risk(t), if ct.reason == StopExit then -1.0 else 2.0);
  }

  lemma GrossOf(e: real, px: real)
    requires e != 0.0
    ensures Ratio(px, e) - 1.0 == Ratio(px - e, e)
  {
    var a, b := px / e, (px - e) / e;
    assert a * e == px && b * e == px - e;
    Cancel(a - 1.0, b, e);
  }
}
