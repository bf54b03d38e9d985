/** scripts/breakout_continuation.py, run_cell: when a trade is opened, how it is left and what it
    earned, written out over what a bar shows. */
module BreakoutLaw {
  import opened Market
  import opened Reals
  import opened Sums
  import opened Atr
  import opened Bias4H
  import opened BiasLaw
  import opened SwingLevels
  import opened Trigger1H
  import opened Breakout
  import opened BreakoutRuns

  // ----- what opens a trade

  /** Enough volume, against its average and in money terms, and a range. */
  predicate Liquid(cell: Cell, s: Scene) {
    s.atr > 0.0 && s.avg > 0.0 && s.c.volume >= cell.volMult * s.avg && s.c.volume >= cell.floor
  }

  /** With the bias, the close goes through the last confirmed swing level that the previous close had
      not passed. */
  predicate BreaksThrough(s: Scene, d: Direction, level: real) {
    if d == Long then s.bias == 1 && s.highs != [] && level == s.highs[|s.highs| - 1] && s.prev <= level < s.c.close
    else s.bias == -1 && s.lows != [] && level == s.lows[|s.lows| - 1] && s.prev >= level > s.c.close
  }

  /** From the close to a quarter of the range behind the level. */
  function RiskTo(s: Scene, d: Direction, level: real): real {
    if d == Long then s.c.close - (level - 0.25 * s.atr) else level + 0.25 * s.atr - s.c.close
  }

  /** Two risks away; or the nearest swing price beyond the close, if it is at least that far. */
  predicate Aims(rule: TargetRule, s: Scene, d: Direction, risk: real, target: real) {
    match rule
    case TwoR => target == if d == Long then s.c.close + 2.0 * risk else s.c.close - 2.0 * risk
    case StructuralTarget =>
      if d == Long then
        && target in s.highs && target - s.c.close >= 2.0 * risk
        && forall k | 0 <= k < |s.highs| && s.highs[k] > s.c.close :: target <= s.highs[k]
      else
        && target in s.lows && s.c.close - target >= 2.0 * risk
        && forall k | 0 <= k < |s.lows| && s.lows[k] < s.c.close :: target >= s.lows[k]
  }

  predicate Offers(cell: Cell, s: Scene, d: Direction, level: real, target: real) {
    Liquid(cell, s) && BreaksThrough(s, d, level) && Aims(cell.rule, s, d, RiskTo(s, d, level), target)
  }

  lemma BrokenIs(s: Scene)
    ensures Broken(s).Some? ==> BreaksThrough(s, Broken(s).value.side, Broken(s).value.level)
    ensures forall d, level :: BreaksThrough(s, d, level) ==> Broken(s) == Some(Breach(d, level))
  {
  }

  lemma {:induction false} TargetIs(rule: TargetRule, s: Scene, d: Direction, dist: real)
    requires dist > 0.0
    ensures TargetFor(rule, s, d, dist).Some? ==> Aims(rule, s, d, dist, TargetFor(rule, s, d, dist).value)
  {
    hide Ratio;
    LowestAboveIs(s.highs, s.c.close);
    HighestBelowIs(s.lows, s.c.close);
    var t := TargetFor(rule, s, d, dist);
    if t.Some? && rule == StructuralTarget {
      RatioAtLeast(Abs(t.value - s.c.close), dist, 2.0);
    }
  }

  lemma {:induction false} AimedIsTarget(rule: TargetRule, s: Scene, d: Direction, dist: real, target: real)
    requires dist > 0.0 && Aims(rule, s, d, dist, target)
    ensures TargetFor(rule, s, d, dist) == Some(target)
  {
    hide Ratio;
    LowestAboveIs(s.highs, s.c.close);
    HighestBelowIs(s.lows, s.c.close);
    if rule == StructuralTarget {
      RatioOrder(Abs(target - s.c.close), dist, 2.0);
      var ps := if d == Long then s.highs else s.lows;
      var k :| 0 <= k < |ps| && ps[k] == target;
    }
  }

  /** What the trade takes over from the bar that opens it. */
  predicate Opened(s: Scene, i: nat, d: Direction, level: real, target: real, t: Trade) {
    && t.side == d && t.entryIndex == i && t.entry == s.c.close && t.level == level && t.target == target
    && t.stop == (if d == Long then level - 0.25 * s.atr else level + 0.25 * s.atr)
    && (s.c.close != 0.0 ==> t.stopDist * s.c.close == RiskTo(s, d, level))
  }

  lemma {:induction false} EntryIs(cell: Cell, s: Scene, i: nat)
    requires i >= 60
    ensures var e := Entry(cell, s, i);
            e.Some? ==> && Offers(cell, s, e.value.side, e.value.level, e.value.target)
                        && Opened(s, i, e.value.side, e.value.level, e.value.target, e.value)
                        && e.value.mae == 0.0
  {
    hide TargetFor, Aims, Broken, BreaksThrough, Ratio;
    BrokenIs(s);
    var e := Entry(cell, s, i);
    if e.Some? {
      var b := Broken(s).value;
      RiskIs(s, b.side, b.level);
      TargetIs(cell.rule, s, b.side, RiskTo(s, b.side, b.level));
      if s.c.close != 0.0 {
        RatioTimes(RiskTo(s, b.side, b.level), s.c.close);
      }
    }
  }

  lemma RiskIs(s: Scene, d: Direction, level: real)
    requires s.atr > 0.0 && BreaksThrough(s, d, level)
    ensures var stop := if d == Long then level - STOP_BUFFER_ATR * s.atr else level + STOP_BUFFER_ATR * s.atr;
            Abs(s.c.close - stop) == RiskTo(s, d, level) > 0.0
  {
  }

  lemma {:induction false} OfferIsEntry(cell: Cell, s: Scene, i: nat, d: Direction, level: real, target: real)
    requires i >= 60 && Offers(cell, s, d, level, target)
    ensures Entry(cell, s, i).Some?
  {
    BrokenIs(s);
    RiskIs(s, d, level);
    AimedIsTarget(cell.rule, s, d, RiskTo(s, d, level), target);
    assert s.bias != 0;
    hide TargetFor, Aims, Broken, BreaksThrough, Ratio;
  }

  // ----- over whole runs

  /** The trade is the one its entry bar opened, but for the excursion recorded since. */
  ghost predicate FromEntry(cell: Cell, ss: seq<Scene>, t: Trade) {
    && 60 <= t.entryIndex < |ss|
    && Entry(cell, ss[t.entryIndex], t.entryIndex) == Some(t.(mae := 0.0))
  }

  ghost predicate AllFromEntry(cell: Cell, ss: seq<Scene>, book: Book) {
    && (forall k | 0 <= k < |book.closed| :: FromEntry(cell, ss, book.closed[k].trade))
    && (book.open.Some? ==> FromEntry(cell, ss, book.open.value))
  }

  /** A trade was open during bar j, opened there, or closed there. */
  ghost predicate Occupied(book: Book, j: nat) {
    || (exists k | 0 <= k < |book.closed| :: book.closed[k].trade.entryIndex <= j <= book.closed[k].exitIndex)
    || (book.open.Some? && book.open.value.entryIndex <= j)
  }

  ghost predicate NoneSkipped(cell: Cell, ss: seq<Scene>, book: Book, n: nat)
    requires n <= |ss|
  {
    forall j: nat | 60 <= j < n && Entry(cell, ss[j], j).Some? :: Occupied(book, j)
  }

  lemma StepFromEntry(cell: Cell, ss: seq<Scene>, n: nat, book: Book)
    requires 60 <= n < |ss| && AllFromEntry(cell, ss, book)
    ensures AllFromEntry(cell, ss, StepBook(cell, ss[n], n, book))
  {
    hide HitStop, HitTarget, Adverse, Entry;
    if book.open.None? && Entry(cell, ss[n], n).Some? {
      EntryIs(cell, ss[n], n);
    }
  }

  lemma {:induction false} StepSkipsNone(cell: Cell, ss: seq<Scene>, n: nat, book: Book)
    requires 60 <= n < |ss| && NoneSkipped(cell, ss, book, n)
    requires book.open.Some? ==> book.open.value.entryIndex < n
    ensures NoneSkipped(cell, ss, StepBook(cell, ss[n], n, book), n + 1)
  {
    hide HitStop, HitTarget, Adverse, Entry;
    var after := StepBook(cell, ss[n], n, book);
    forall j: nat | 60 <= j < n + 1 && Entry(cell, ss[j], j).Some? ensures Occupied(after, j) {
      if book.open.None? && j == n {
        EntryIs(cell, ss[n], n);
      } else {
        StaysOccupied(cell, ss[n], n, book, j);
      }
    }
  }

  lemma StaysOccupied(cell: Cell, s: Scene, n: nat, book: Book, j: nat)
    requires j <= n && (j == n ==> book.open.Some?) && (j < n ==> Occupied(book, j))
    requires book.open.Some? ==> book.open.value.entryIndex < n
    ensures Occupied(StepBook(cell, s, n, book), j)
  {
    hide HitStop, HitTarget, Adverse, Entry;
    var after := StepBook(cell, s, n, book);
    if j < n && exists k | 0 <= k < |book.closed| :: book.closed[k].trade.entryIndex <= j <= book.closed[k].exitIndex {
      var k :| 0 <= k < |book.closed| && book.closed[k].trade.entryIndex <= j <= book.closed[k].exitIndex;
      assert after.closed[k] == book.closed[k];
    } else if after.open.None? {
      assert after.closed[|book.closed|].trade.entryIndex <= j <= after.closed[|book.closed|].exitIndex;
    }
  }

  lemma {:induction false} RunFromEntry(cell: Cell, ss: seq<Scene>, n: nat)
    requires n <= |ss|
    ensures AllFromEntry(cell, ss, RunTo(cell, ss, n)) && NoneSkipped(cell, ss, RunTo(cell, ss, n), n)
  {
    hide AllFromEntry, NoneSkipped, StepBook, OpenOk, ClosedOk;
    if n <= BREAKOUT_WARMUP {
      NothingYet(cell, ss, n);
    } else {
      RunFromEntry(cell, ss, n - 1);
      StepFromEntry(cell, ss, n - 1, RunTo(cell, ss, n - 1));
      EveryTrade(cell, ss, n - 1);
      OpenedBefore(cell, ss, n - 1, RunTo(cell, ss, n - 1));
      StepSkipsNone(cell, ss, n - 1, RunTo(cell, ss, n - 1));
    }
  }

  lemma NothingYet(cell: Cell, ss: seq<Scene>, n: nat)
    requires n <= |ss| && n <= 60
    ensures AllFromEntry(cell, ss, Book([], None)) && NoneSkipped(cell, ss, Book([], None), n)
  {
  }

  lemma OpenedBefore(cell: Cell, ss: seq<Scene>, n: nat, book: Book)
    requires n <= |ss| && BookOk(cell.rule, book, ss, n)
    ensures book.open.Some? ==> book.open.value.entryIndex < n
  {
  }

  /** Every closed trade was opened by a bar that offered it, with the level, stop and target of that
      bar. */
  lemma {:induction false} EveryOpening(cell: Cell, ss: seq<Scene>, n: nat, k: nat)
    requires n <= |ss| && k < |RunTo(cell, ss, n).closed|
    ensures var t := RunTo(cell, ss, n).closed[k].trade;
            && 60 <= t.entryIndex < |ss|
            && Offers(cell, ss[t.entryIndex], t.side, t.level, t.target)
            && Opened(ss[t.entryIndex], t.entryIndex, t.side, t.level, t.target, t)
  {
    hide RunTo, Entry, Offers;
    RunFromEntry(cell, ss, n);
    var t := RunTo(cell, ss, n).closed[k].trade;
    assert FromEntry(cell, ss, t);
    EntryIs(cell, ss[t.entryIndex], t.entryIndex);
  }

  /** And every bar that offers a trade either opens it or finds one open. */
  lemma {:induction false} EveryOffer(cell: Cell, ss: seq<Scene>, n: nat, j: nat,
                                      d: Direction, level: real, target: real)
    requires n <= |ss| && 60 <= j < n && Offers(cell, ss[j], d, level, target)
    ensures Occupied(RunTo(cell, ss, n), j)
  {
    hide RunTo, Entry, Offers;
    RunFromEntry(cell, ss, n);
    OfferIsEntry(cell, ss[j], j, d, level, target);
  }

  // ----- how it is left

  predicate AtStop(t: Trade, c: Candle) {
    if t.side == Long then c.low <= t.stop else c.high >= t.stop
  }

  predicate AtTarget(t: Trade, c: Candle) {
    if t.side == Long then c.high >= t.target else c.low <= t.target
  }

  /** Left at the first bar that trades at the stop or at the target, by the stop if at both. */
  lemma {:induction false} EveryExit(cell: Cell, ss: seq<Scene>, n: nat, k: nat)
    requires n <= |ss| && k < |RunTo(cell, ss, n).closed|
    ensures var ct := RunTo(cell, ss, n).closed[k];
            var t, x := ct.trade, ct.exitIndex;
            && t.entryIndex < x < n
            && (forall j | t.entryIndex < j < x :: !AtStop(t, ss[j].c) && !AtTarget(t, ss[j].c))
            && (ct.reason == StopExit ==> AtStop(t, ss[x].c) && ct.exitPx == t.stop)
            && (ct.reason == TargetExit ==> !AtStop(t, ss[x].c) && AtTarget(t, ss[x].c) && ct.exitPx == t.target)
  {
    hide RunTo, SoundTrade, Worst;
    EveryTrade(cell, ss, n);
    assert ClosedOk(cell.rule, RunTo(cell, ss, n).closed[k], ss, n);
  }

  /** What a trade earned: the move in its favour less both fees charged on the entry, in percent of the
      entry and in units of the risk. */
  predicate Earns(ct: ClosedTrade) {
    var t := ct.trade;
    var gain := if t.side == Long then ct.exitPx - t.entry else t.entry - ct.exitPx;
    && ct.net * t.entry == 100.0 * (gain - 0.0015 * t.entry)
    && ct.r * (if t.side == Long then t.entry - t.stop else t.stop - t.entry) == gain - 0.0015 * t.entry
  }

  lemma {:induction false} EveryResult(cell: Cell, ss: seq<Scene>, n: nat, k: nat)
    requires n <= |ss| && k < |RunTo(cell, ss, n).closed|
    ensures var ct := RunTo(cell, ss, n).closed[k]; ct.trade.entry != 0.0 ==> Earns(ct)
  {
    hide RunTo, Worst, HitStop, HitTarget, CloseTrade, Untouched, Earns, Ratio, Risk;
    EveryTrade(cell, ss, n);
    var ct := RunTo(cell, ss, n).closed[k];
    assert ClosedOk(cell.rule, ct, ss, n);
    if ct.trade.entry != 0.0 {
      ClosedResult(ct.trade, ct.exitIndex, if ct.reason == StopExit then ct.trade.stop else ct.trade.target, ct.reason);
    }
  }

  lemma ClosedResult(t: Trade, x: nat, px: real, reason: Exit)
    requires t.entry != 0.0 && Risk(t) > 0.0 && t.stopDist == Ratio(Risk(t), t.entry)
    ensures Earns(CloseTrade(t, x, px, reason))
  {
    hide Ratio;
    var gain := if t.side == Long then px - t.entry else t.entry - px;
    GrossOf(t.entry, px);
    ResultIs(t.entry, Risk(t), gain, Ratio(gain, t.entry) - 2.0 * TAKER_FEE);
  }

  lemma ResultIs(e: real, risk: real, gain: real, net: real)
    requires e != 0.0 && risk > 0.0 && net == Ratio(gain, e) - 2.0 * TAKER_FEE
    ensures net * 100.0 * e == 100.0 * (gain - 0.0015 * e)
    ensures Ratio(net, Ratio(risk, e)) * risk == gain - 0.0015 * e
  {
    hide Ratio;
    RatioTimes(gain, e);
    RatioTimes(risk, e);
    var d := Ratio(risk, e);
    assert d != 0.0;
    RatioTimes(net, d);
    var r := Ratio(net, d);
    assert net * e == gain - 0.0015 * e;
    assert r * risk == r * (d * e) == (r * d) * e;
  }

  /** The move to the bar's worst price, counted from the entry. */
  function WorstMove(t: Trade, c: Candle): real {
    if t.side == Long then c.low - t.entry else t.entry - c.high
  }

  lemma AdverseIs(t: Trade, c: Candle)
    requires t.entry > 0.0
    ensures Adverse(t.side, t.entry, c) * t.entry == WorstMove(t, c)
  {
    RatioTimes(c.low, t.entry);
    RatioTimes(t.entry - c.high, t.entry);
  }

  lemma {:induction false} WorstBounds(t: Trade, ss: seq<Scene>, lo: nat, hi: nat, j: nat)
    requires t.entry > 0.0 && lo <= j < hi <= |ss|
    ensures Worst(t.side, t.entry, ss, lo, hi) * t.entry <= WorstMove(t, ss[j].c)
    decreases hi
  {
    hide Adverse, WorstMove;
    var before, last := Worst(t.side, t.entry, ss, lo, hi - 1), Adverse(t.side, t.entry, ss[hi - 1].c);
    AdverseIs(t, ss[hi - 1].c);
    if j < hi - 1 {
      WorstBounds(t, ss, lo, hi - 1, j);
    }
    SmallerScaled(before, last, t.entry);
  }

  lemma SmallerScaled(x: real, y: real, w: real)
    requires w > 0.0
    ensures Min(x, y) * w <= x * w && Min(x, y) * w <= y * w
  {
    if y < x {
      ProductPositive(x - y, w);
    } else if x < y {
      ProductPositive(y - x, w);
    }
  }

  lemma {:induction false} WorstAttained(t: Trade, ss: seq<Scene>, lo: nat, hi: nat)
    requires t.entry > 0.0 && hi <= |ss|
    ensures var w := Worst(t.side, t.entry, ss, lo, hi);
            w == 0.0 || exists j | lo <= j < hi :: w * t.entry == WorstMove(t, ss[j].c)
    decreases hi
  {
    hide Adverse, WorstMove;
    if lo < hi {
      AdverseIs(t, ss[hi - 1].c);
      WorstAttained(t, ss, lo, hi - 1);
    }
  }

  /** The recorded excursion is the deepest move against the trade on the bars after its entry, its
      exit bar included, or zero. */
  lemma {:induction false} EveryExcursion(cell: Cell, ss: seq<Scene>, n: nat, k: nat)
    requires n <= |ss| && k < |RunTo(cell, ss, n).closed|
    ensures var ct := RunTo(cell, ss, n).closed[k];
            var t, x := ct.trade, ct.exitIndex;
            t.entry > 0.0 ==>
              && t.entryIndex < x < n
              && (forall j | t.entryIndex < j <= x :: t.mae * t.entry <= WorstMove(t, ss[j].c))
              && (t.mae == 0.0 || exists j | t.entryIndex < j <= x :: t.mae * t.entry == WorstMove(t, ss[j].c))
  {
    hide RunTo, HitStop, HitTarget, CloseTrade, Untouched, SoundTrade, Worst, WorstMove;
    EveryTrade(cell, ss, n);
    var ct := RunTo(cell, ss, n).closed[k];
    assert ClosedOk(cell.rule, ct, ss, n);
    var t, x := ct.trade, ct.exitIndex;
    if t.entry > 0.0 {
      forall j | t.entryIndex < j <= x ensures t.mae * t.entry <= WorstMove(t, ss[j].c) {
        WorstBounds(t, ss, t.entryIndex + 1, x + 1, j);
      }
      WorstAttained(t, ss, t.entryIndex + 1, x + 1);
    }
  }

  // ----- the bias that a trade follows

  /** The sign of the last closed 4H bar: of its close against the mean of the last 50 closes, or of
      the structural bias of the last 300 bars. */
  lemma {:induction false} SignIs(four: seq<Candle>, j: nat)
    requires j < |four|
    ensures var sum := Total(Closes(four), if j >= 49 then j - 49 else 0, j + 1);
            && (SignAt(four, SmaBias, j) == 1 <==> j >= 49 && 50.0 * four[j].close > sum)
            && (SignAt(four, SmaBias, j) == -1 <==> j >= 49 && 50.0 * four[j].close < sum)
    ensures var recent := four[if j + 1 <= 300 then 0 else j - 299..j + 1];
            && (SignAt(four, FibSrBias, j) == 1 <==> j >= 30 && ComputeBias(recent, 2, 20).bias == Bullish)
            && (SignAt(four, FibSrBias, j) == -1 <==> j >= 30 && ComputeBias(recent, 2, 20).bias == Bearish)
  {
    hide ComputeBias, Total;
    if j >= 49 {
      var sum := Total(Closes(four), j - 49, j + 1);
      var mean := sum / 50.0;
      assert mean * 50.0 == sum;
      assert SmaAt(Closes(four), 50, j) == mean;
    }
  }

  // ----- what a bar shows

  function VolumeOf(cs: seq<Candle>): int -> real {
    j => if 0 <= j < |cs| then cs[j].volume else 0.0
  }

  lemma {:induction false} VolumesAdd(cs: seq<Candle>, lo: nat, hi: nat)
    requires lo <= hi <= |cs|
    ensures Total(Volumes(cs), lo, hi) == Sum(VolumeOf(cs), lo, hi)
    decreases hi - lo
  {
    if lo < hi {
      VolumesAdd(cs, lo, hi - 1);
    }
  }

  /** The close before; the 14-bar range; the mean of the last 20 volumes; the sign given for the last
      4H bar that had closed; and the ends of the rises and of the falls found on the bars so far. */
  lemma {:induction false} SceneIs(signs: seq<int>, closeMs: seq<int>, trig: seq<Candle>, i: nat, k: nat)
    requires |signs| == |closeMs| && 60 <= i < |trig|
    requires k <= |closeMs| && (forall j | 0 <= j < k :: closeMs[j] <= trig[i].closeTime)
    requires k < |closeMs| ==> trig[i].closeTime < closeMs[k]
    ensures var s, swings := Scenes(signs, closeMs, trig)[i], SwingsTo(trig[..i + 1], 2, i + 1);
            && s.c == trig[i] && s.prev == trig[i - 1].close && s.atr == AtrAt(trig, 14, i)
            && 20.0 * s.avg == Sum(VolumeOf(trig), i - 19, i + 1)
            && s.bias == (if k == 0 then 0 else signs[k - 1])
            && s.highs == PricesOf(swings, Up) && s.lows == PricesOf(swings, Down)
  {
    hide AtrAt, Total, PricesOf, SwingsTo, Sum, Volumes;
    VolumesAdd(trig, i - 19, i + 1);
    SwingsAre(trig[..i + 1], 2, i + 1);
    var b := BisectRight(closeMs, trig[i].closeTime);
    assert b == k;
    Twentieth(Total(Volumes(trig), i - 19, i + 1), SmaAt(Volumes(trig), 20, i));
  }

  lemma Twentieth(sum: real, mean: real)
    ensures mean == sum / 20.0 ==> 20.0 * mean == sum
  {
  }
}
