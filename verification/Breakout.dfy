/** scripts/breakout_continuation.py, run_cell: breakouts of confirmed swing levels, walked bar
    by bar. The volume floor, the bias signs and the liquidity multiple are parameters. */
module Breakout {
  import opened Market
  import opened Reals
  import opened Bias4H
  import opened Atr
  import opened Trigger1H
  import opened SwingLevels

  const BREAKOUT_WARMUP: nat := 60
  const VOL_AVG_WINDOW: nat := 20
  const STOP_BUFFER_ATR: real := 0.25
  const SMA_WINDOW: nat := 50
  const BIAS_LOOKBACK_4H: nat := 300
  const MIN_RR: real := 2.0

  datatype BiasMethod = SmaBias | FibSrBias

  datatype TargetRule = TwoR | StructuralTarget

  datatype Cell = Cell(rule: TargetRule, volMult: real, floor: real)

  datatype Trade = Trade(side: Direction, entryIndex: nat, entry: real, level: real,
                         stop: real, target: real, stopDist: real, mae: real)

  datatype Exit = StopExit | TargetExit

  datatype ClosedTrade = ClosedTrade(trade: Trade, exitIndex: nat, exitPx: real, reason: Exit,
                                     net: real, r: real)

  datatype Book = Book(closed: seq<ClosedTrade>, open: Option<Trade>)

  // ----- the 4H bias signs

  function Volumes(cs: seq<Candle>): (r: seq<real>)
    ensures |r| == |cs| && forall i | 0 <= i < |cs| :: r[i] == cs[i].volume
  {
    seq(|cs|, i requires 0 <= i < |cs| => cs[i].volume)
  }

  function SignOf(b: Bias): int {
    match b
    case Bullish => 1
    case Bearish => -1
    case Neutral => 0
  }

  function SignAt(four: seq<Candle>, how: BiasMethod, j: nat): int
    requires j < |four|
  {
    match how
    case SmaBias =>
      var s := SmaAt(Closes(four), SMA_WINDOW, j);
      if j < SMA_WINDOW - 1 then 0
      else if four[j].close > s then 1 else if four[j].close < s then -1 else 0
    case FibSrBias =>
      if j < 30 then 0 else
      var start := if j + 1 <= BIAS_LOOKBACK_4H then 0 else j + 1 - BIAS_LOOKBACK_4H;
      SignOf(ComputeBias(four[start..j + 1], FRACTAL_WIDTH, SR_LOOKBACK).bias)
  }

  method BiasSeries4H(four: seq<Candle>, how: BiasMethod) returns (signs: seq<int>, closeMs: seq<int>)
    ensures |signs| == |closeMs| == |four|
    ensures forall j | 0 <= j < |four| :: signs[j] == SignAt(four, how, j) && closeMs[j] == four[j].closeTime
  {
    hide ComputeBias, SmaAt;
    signs := seq(|four|, _ => 0);
    var s := Sma(Closes(four), SMA_WINDOW);
    for j := 0 to |four|
      invariant |signs| == |four|
      invariant forall k | 0 <= k < j :: signs[k] == SignAt(four, how, k)
    {
      if how == SmaBias {
        if j >= SMA_WINDOW - 1 {
          signs := signs[j := if four[j].close > s[j] then 1 else if four[j].close < s[j] then -1 else 0];
        } else {
          signs := signs[j := 0];
        }
      } else if j < 30 {
        signs := signs[j := 0];
      } else {
        var start := if j + 1 <= BIAS_LOOKBACK_4H then 0 else j + 1 - BIAS_LOOKBACK_4H;
        signs := signs[j := SignOf(ComputeBias(four[start..j + 1], FRACTAL_WIDTH, SR_LOOKBACK).bias)];
      }
    }
    closeMs := seq(|four|, j requires 0 <= j < |four| => four[j].closeTime);
  }

  /** The sign of the last 4H bar closed by time t; none closed reads as no bias. */
  function BiasSignAt(signs: seq<int>, closeMs: seq<int>, t: int): int
    requires |signs| == |closeMs|
  {
    var j := BisectRight(closeMs, t);
    if j > 0 then signs[j - 1] else 0
  }

  // ----- what a bar offers

  /** Everything the walk looks at on one bar. */
  datatype Scene = Scene(c: Candle, prev: real, atr: real, avg: real, bias: int,
                         highs: seq<real>, lows: seq<real>)

  /** Swing prices are those that detection on bars 0..i alone would give. */
  function SceneAt(signs: seq<int>, closeMs: seq<int>, trig: seq<Candle>, i: nat): Scene
    requires |signs| == |closeMs| && i < |trig|
  {
    Scene(trig[i], if i > 0 then trig[i - 1].close else trig[i].close,
          AtrAt(trig, ATR_PERIOD, i), SmaAt(Volumes(trig), VOL_AVG_WINDOW, i),
          BiasSignAt(signs, closeMs, trig[i].closeTime),
          Recomputed(trig, i, Up), Recomputed(trig, i, Down))
  }

  function Scenes(signs: seq<int>, closeMs: seq<int>, trig: seq<Candle>): (r: seq<Scene>)
    requires |signs| == |closeMs|
    ensures |r| == |trig|
    ensures forall i | 0 <= i < |trig| :: r[i] == SceneAt(signs, closeMs, trig, i)
  {
    seq(|trig|, i requires 0 <= i < |trig| => SceneAt(signs, closeMs, trig, i))
  }

  datatype Breach = Breach(side: Direction, level: real)

  /** The last confirmed level, if this bar closes through it in the direction of the bias. */
  function Broken(s: Scene): Option<Breach> {
    if s.bias == 1 && s.highs != [] && s.prev <= s.highs[|s.highs| - 1] < s.c.close
    then Some(Breach(Long, s.highs[|s.highs| - 1]))
    else if s.bias == -1 && s.lows != [] && s.prev >= s.lows[|s.lows| - 1] > s.c.close
    then Some(Breach(Short, s.lows[|s.lows| - 1]))
    else None
  }

  function TargetFor(rule: TargetRule, s: Scene, side: Direction, dist: real): Option<real> {
    match rule
    case TwoR => Some(if side == Long then s.c.close + 2.0 * dist else s.c.close - 2.0 * dist)
    case StructuralTarget =>
      var t := if side == Long then LowestAbove(s.highs, s.c.close) else HighestBelow(s.lows, s.c.close);
      if t.None? || Ratio(Abs(t.value - s.c.close), dist) < MIN_RR then None else t
  }

  /** The trade this bar opens, if any. */
  function Entry(cell: Cell, s: Scene, i: nat): Option<Trade> {
    if s.bias == 0 || i < ATR_PERIOD || s.atr <= 0.0 || s.avg <= 0.0 then None
    else if !(s.c.volume >= cell.volMult * s.avg && s.c.volume >= cell.floor) then None
    else match Broken(s)
      case None => None
      case Some(b) =>
        var buf := STOP_BUFFER_ATR * s.atr;
        var stop := if b.side == Long then b.level - buf else b.level + buf;
        var dist := Abs(s.c.close - stop);
        if dist <= 0.0 then None else
        match TargetFor(cell.rule, s, b.side, dist)
        case None => None
        case Some(t) => Some(Trade(b.side, i, s.c.close, b.level, stop, t, Ratio(dist, s.c.close), 0.0))
  }

  predicate HitStop(t: Trade, c: Candle) {
    if t.side == Long then c.low <= t.stop else c.high >= t.stop
  }

  predicate HitTarget(t: Trade, c: Candle) {
    if t.side == Long then c.high >= t.target else c.low <= t.target
  }

  function Adverse(side: Direction, entry: real, c: Candle): real {
    if side == Long then Ratio(c.low, entry) - 1.0 else Ratio(entry - c.high, entry)
  }

  function CloseTrade(t: Trade, i: nat, px: real, reason: Exit): ClosedTrade {
    var gross := if t.side == Long then Ratio(px, t.entry) - 1.0 else Ratio(t.entry - px, t.entry);
    ClosedTrade(t, i, px, reason, (gross - 2.0 * TAKER_FEE) * 100.0, Ratio(gross - 2.0 * TAKER_FEE, t.stopDist))
  }

  /** One bar: an open trade is marked and possibly closed, the stop first; otherwise the bar may
      open one. */
  function StepBook(cell: Cell, s: Scene, i: nat, book: Book): Book {
    match book.open
    case None => Book(book.closed, Entry(cell, s, i))
    case Some(t) =>
      var t := t.(mae := Min(t.mae, Adverse(t.side, t.entry, s.c)));
      if HitStop(t, s.c) then Book(book.closed + [CloseTrade(t, i, t.stop, StopExit)], None)
      else if HitTarget(t, s.c) then Book(book.closed + [CloseTrade(t, i, t.target, TargetExit)], None)
      else Book(book.closed, Some(t))
  }

  /** The book after bars BREAKOUT_WARMUP..n-1. */
  function RunTo(cell: Cell, ss: seq<Scene>, n: nat): Book
    requires n <= |ss|
  {
    if n <= BREAKOUT_WARMUP then Book([], None)
    else StepBook(cell, ss[n - 1], n - 1, RunTo(cell, ss, n - 1))
  }

  /** Some bar before n opens a trade at a close of zero, by which its stop distance is divided. */
  predicate OpensAtZero(cell: Cell, ss: seq<Scene>, n: nat)
    requires n <= |ss|
  {
    n > BREAKOUT_WARMUP
    && (OpensAtZero(cell, ss, n - 1)
        || (RunTo(cell, ss, n - 1).open.None? && Entry(cell, ss[n - 1], n - 1).Some? && ss[n - 1].c.close == 0.0))
  }

  lemma {:induction false} OpensLater(cell: Cell, ss: seq<Scene>, m: nat, n: nat)
    requires m <= n <= |ss| && OpensAtZero(cell, ss, m)
    ensures OpensAtZero(cell, ss, n)
    decreases n
  {
    if m < n {
      OpensLater(cell, ss, m, n - 1);
    }
  }

  lemma OpensStep(cell: Cell, ss: seq<Scene>, i: nat)
    requires BREAKOUT_WARMUP <= i < |ss| && !OpensAtZero(cell, ss, i)
    ensures OpensAtZero(cell, ss, i + 1) <==>
              RunTo(cell, ss, i).open.None? && Entry(cell, ss[i], i).Some? && ss[i].c.close == 0.0
  {
  }

  /** The walk with moving cursors and precomputed series gives the book in which every bar
      detects its swings afresh; it raises exactly if a trade would be opened at a close of zero. */
  method RunCell(trig: seq<Candle>, signs: seq<int>, closeMs: seq<int>, cell: Cell)
    returns (r: Result<seq<ClosedTrade>>)
    requires |signs| == |closeMs|
    ensures var ss := Scenes(signs, closeMs, trig);
            && (r.Err? <==> OpensAtZero(cell, ss, |trig|))
            && (r.Ok? ==> r.value == RunTo(cell, ss, |trig|).closed)
  {
    hide Entry, Climbing, Recomputed, LevelsOf, PricesIn, PricesBy, Swings, AtrAt, SmaAt, BiasSignAt,
         HitStop, HitTarget, CloseTrade, Adverse, Volumes, OpensAtZero;
    var n := |trig|;
    var atrResult := WilderAtr(trig, ATR_PERIOD);
    var atr := atrResult.value;
    var volAvg := Sma(Volumes(trig), VOL_AVG_WINDOW);
    var highs, lows := ConfirmedLevels(trig);
    SwingLevelsClimb(trig, Up);
    SwingLevelsClimb(trig, Down);
    var hiCur, loCur := 0, 0;
    var highPrices, lowPrices := [], [];
    NoPricesYet(highs, lows);
    var trades: seq<ClosedTrade> := [];
    var open: Option<Trade> := None;
    ghost var ss := Scenes(signs, closeMs, trig);
    var i := BREAKOUT_WARMUP;
    if i <= n {
      NothingBeforeWarmup(cell, ss, i);
    }
    while i < n
      invariant BREAKOUT_WARMUP <= i && (i <= n || i == BREAKOUT_WARMUP)
      invariant hiCur <= |highs| && highPrices == PricesIn(highs[..hiCur])
      invariant loCur <= |lows| && lowPrices == PricesIn(lows[..loCur])
      invariant hiCur > 0 ==> highs[hiCur - 1].at <= i
      invariant loCur > 0 ==> lows[loCur - 1].at <= i
      invariant i <= n ==> Book(trades, open) == RunTo(cell, ss, i) && !OpensAtZero(cell, ss, i)
      invariant n < i ==> trades == []
    {
      var c := trig[i];
      hiCur, highPrices := AdvanceCursor(highs, hiCur, highPrices, i, n + FRACTAL_WIDTH);
      loCur, lowPrices := AdvanceCursor(lows, loCur, lowPrices, i, n + FRACTAL_WIDTH);
      ConfirmedIsRecomputed(trig, i, Up);
      ConfirmedIsRecomputed(trig, i, Down);
      var s := Scene(c, trig[i - 1].close, atr[i], volAvg[i], BiasSignAt(signs, closeMs, c.closeTime),
                     highPrices, lowPrices);
      assert s == ss[i];
      OpensStep(cell, ss, i);
      if open.Some? {
        var t := open.value.(mae := Min(open.value.mae, Adverse(open.value.side, open.value.entry, c)));
        if HitStop(t, c) {
          trades, open := trades + [CloseTrade(t, i, t.stop, StopExit)], None;
        } else if HitTarget(t, c) {
          trades, open := trades + [CloseTrade(t, i, t.target, TargetExit)], None;
        } else {
          open := Some(t);
        }
      } else {
        open := Entry(cell, s, i);
        if open.Some? && c.close == 0.0 {
          OpensLater(cell, ss, i + 1, n);
          return Err("division by zero");
        }
      }
      i := i + 1;
    }
    if n < BREAKOUT_WARMUP {
      NothingBeforeWarmup(cell, ss, n);
    }
    r := Ok(trades);
  }

  lemma NoPricesYet(highs: seq<Level>, lows: seq<Level>)
    ensures PricesIn(highs[..0]) == [] && PricesIn(lows[..0]) == []
  {
  }

  lemma NothingBeforeWarmup(cell: Cell, ss: seq<Scene>, n: nat)
    requires n <= |ss| && n <= BREAKOUT_WARMUP
    ensures RunTo(cell, ss, n) == Book([], None) && !OpensAtZero(cell, ss, n)
  {
  }
}
