# Trading-system verification

Dafny models of the decision logic of a crypto trading system, with proofs of the properties its
documentation promises or its design relies on. Prices, equities and ratios are exact reals, times
are integer milliseconds, lists are sequences. Where the Python code updates variables in a loop the
model is a method with that loop; each such method is proved equal to a function, or to a
declarative rule, and the theorems are about those.

What is modelled, by file:

- `Market`, `Reals`, `Sums`: candles, directions, the built-ins used (`bisect_right`, guarded
  minima), division facts, finite sums and the Cauchy-Schwarz inequality.
- `Bias4H`, `SwingStability`, `SwingMirror`, `BiasMirror`, `BiasLaw`: fractal swings, levels and the
  structural bias; swings never repaint; when they are symmetric under reflection.
- `Trigger1H`, `Atr`, `AtrLaw`, `FisherCycle`, `CycleMachine`, `CycleCausality`, `CycleMirror`,
  `CycleGrammar`, `CycleLegs`: the clamped Fisher recursion, Wilder's ATR and the LONG/SHORT/FLAT
  cycle machine, with no lookahead, mirror symmetry, leg grammar and loss bound over whole runs.
- `TrendRules`, `ForwardTest`, `EquityLaw`, `MarkingProtocol`, `SoloTick`, `RacingInceptions`: the
  forward-test marking job as a class over its table; what a table is worth; any number of such
  workers interleaved insert by insert with crashes; the steps of an undisturbed worker as one tick;
  races for the first row.
- `SwingLevels`, `Breakout`, `BreakoutRuns`, `BreakoutLaw`: confirmed levels, cursors and the
  breakout walk.
- `Signals`, `SignalLaw`, `Outcome`, `OutcomeLaw`, `NoStop`, `NoStopLaw`, `WalkForward`, `WalkLaw`:
  stop and target models, the two trade simulators and the walk-forward.
- `Deviations`, `NeweyWest`, `CellLaw`, `Correlation`, `Ranks`, `RawMoments`: the statistics kernel.
- `Sizing`, `SizingLaw`, `RiskGate`, `OpenTogether`, `Guardian`, `GuardianLaw`, `Dca`, `DcaRuns`,
  `DcaLaw`, `Admission`, `ExposureLaw`: account floors, attenuated sizing, the pre-trade gate with
  one and with several positions open, the guardian process, multi-tranche episodes, the concurrency
  gate.

A method and the rule it is proved against share small functions, such as what counts as a touch of
a stop. `CycleLegs`, `RawMoments` and the files named `...Law` say what the results are without those
functions: in terms of candles, prices and events, with the numbers written out.

`ln`, `exp`, `sqrt` and `pow` are function parameters. What a theorem assumes of them stands in its
`requires`: the product law and monotonicity of the logarithm (`IsLog`, `Increasing`),
exp(ln x) = x (`ExpLn`), exp(x + y) = exp x * exp y (`IsExp`), exp(0) = 1 (in `FlatPair` and the races), non-negative square roots
(`IsSqrt`), and 0 <= b^a <= b with 1^a = 1 for b in [0, 1] and a >= 1 (`IsPow`).

Where code and documentation disagree the models follow the code:

- The forward test's header says that overlapping schedulers are no-ops. For workers that race for
  the first row this is true exactly if the bars they insert at form one gap-free range, flat
  throughout and with a logarithm for every return if it has several bars (`RaceIsRunIff`;
  `TwoRacers` for two of them, `RaceLeavesGap` for an input that fails). Under every interleaving
  with later ticks it is proved for first rows at one bar or at two adjacent flat ones
  (`EveryInterleaving`).
- The same header says that a downtime of up to about 270 days heals on the next run. A fetch of n
  daily bars heals exactly up to n - 61 missed bars (`DowntimeHealed`): with 300 bars that is 239,
  and from 240 to 270 the tick refuses and changes nothing (`DowntimeLimit`).
- Swing detection is not symmetric: a bar that is a fractal both ways counts its high first.
  `SwingsMirrorIff` gives the exact condition and `FlatBarsAreBearish` an input.
- `first_profit` is described as the first net-profitable close. Its trigger counts two fees on the
  entry, its result one on entry and one on exit. For a long the closes above entry*(1+2f) and up to
  entry*(1+f)/(1-f) fire without paying: `FirstProfitNet` proves that band exact for both profit
  models, `FirstProfitCanLose` gives a series.
- The gate tests each order's own worst case against the floors. With one position open at a time
  this keeps every day above them (`DayOneAtATime`). `/risk max 2` allows two: `TwoOpenBreach` gives
  a day on which both are approved and their stops together cross the daily floor. `TogetherIff` has
  the exact test for k approvals on one state of the account, and `DayWithinMargin` a margin that
  holds on every day.
- The guardian's header says that KILLED never resets without a confirmed restart. The operator's
  commands write the state unconditionally: after a flatten the state is the operator's last command
  (`EngineAfterKill`), `/pause` alone replaces KILLED (`PauseUnkills`), and the guardian acts on
  nothing any more (`InertAfterKill`). What the guardian itself never does is `GuardianNeverUnkills`.

## Model

| member | source | states |
|---|---|---|
| `Bias4H.DetectSwings` | strategy/bias_4h.py:68-94 | The list-building loop over the sorted highs-then-lows returns exactly the alternating moves of the fractal points taken in bar order, the reference every later theorem uses. |
| `Bias4H.SortedPoints` | strategy/bias_4h.py:76-82 | Stable sorting of all highs followed by all lows equals collecting bar by bar, with a bar that is both contributing its high first. |
| `Bias4H.LegsOfNextBar` | strategy/bias_4h.py:84-94 | One more bar appends exactly the swings that end on it and changes none before. |
| `Bias4H.BuildHorizontalSR` | strategy/bias_4h.py:108-115 | One level per recent swing, in order, resistance for an up-swing and support for a down-swing, at the swing's end. |
| `SwingStability.FractalPrefix` | strategy/bias_4h.py:54-65 | A bar is a fractal of the first m bars iff it is one of the whole series and its width bars after it lie within the m. |
| `SwingStability.NeverRepaints` | strategy/bias_4h.py:68-75 | Detection on any prefix of any length m returns exactly the swings of the full series that end before m - width: nothing repaints, nothing is early, nothing is missing. |
| `SwingMirror.SwingsMirrorIff` | strategy/bias_4h.py:68-94 | Detection commutes with turning prices upside down if and only if no bar is a fractal both ways. |
| `SwingMirror.DoubleFractalEndsDown` | strategy/bias_4h.py:76-94 | A bar that is a fractal both ways always closes with a down-swing, the reason the symmetry breaks. |
| `SwingMirror.DoubleFractalBreaksMirror` | strategy/bias_4h.py:76-94 | Any single double fractal anywhere makes the mirrored series' swings differ from the mirrored swings. |
| `BiasMirror.ClosestMirror` | strategy/bias_4h.py:118-122 | The nearest support of a level list is the mirror image of the nearest resistance of the mirrored list, ties included. |
| `BiasMirror.ComputeBiasMirror` | strategy/bias_4h.py:125-156 | Without double fractals reflection swaps BULLISH and BEARISH and keeps NEUTRAL, for every series, width and lookback. |
| `BiasMirror.FlatBarsAreBearish` | strategy/bias_4h.py:125-156 | Concrete input: five equal bars, their own mirror image, are judged BEARISH. |
| `BiasLaw.SwingsAre` | strategy/bias_4h.py:54-94 | The detected swings, from highs and lows alone: a bar higher (lower) than none of its neighbours within the width ends an up-swing from the low of the last such bar if that was a trough (a down-swing from its high if it was not), and a bar that is both ends a down-swing from its own high. |
| `BiasLaw.BiasIs` | strategy/bias_4h.py:97-156 | The result from those swings: no swing, no bias; BULLISH exactly if the last swing rose and the close holds above its 0.618 retracement and above the nearest support, if there is one; BEARISH in the mirrored case; one level per recent swing end. |
| `BiasLaw.ClosestIs` | strategy/bias_4h.py:118-122 | The nearest level of a kind, the first of these on a tie, or none if there is none of the kind. |
| `Trigger1H.FisherTransform` | strategy/trigger_1h.py:22-66 | The carried recursion fills one value per bar equal to the filter over the bars so far; the trigger line is that line one bar late. |
| `Trigger1H.FilterPrefix` | strategy/trigger_1h.py:41-66 | The filter after n bars reads only those n bars. |
| `Trigger1H.HalfLogOddsOdd` | strategy/trigger_1h.py:56-60 | The transform of -x is the negated transform of x, from the product law of the logarithm alone. |
| `Trigger1H.FisherBounded` | strategy/trigger_1h.py:41-66 | On every price history whatever, every Fisher value stays within ln(1999), the fixed point of clamp and recursion. |
| `Trigger1H.FisherMirror` | strategy/trigger_1h.py:41-66 | Reflecting all prices negates the whole line. |
| `Trigger1H.Sma` | strategy/trigger_1h.py:82-89 | Full windows average exactly the last `period` values, earlier entries pass through. |
| `Atr.TrueRanges` | strategy/atr.py:37-40 | Entry i is the largest of the bar's range and its two gaps from the previous close; entry 0 is zero. |
| `Atr.WilderAtr` | strategy/atr.py:30-47 | Raises exactly for a period below one; otherwise the array loop yields zeros, the seed mean, and the smoothed recursion, for series of any length. |
| `Atr.AtrPrefix` | strategy/atr.py:37-46 | The ATR at a bar is the same computed from any longer or shorter series that contains it. |
| `Atr.AtrMirror` | strategy/atr.py:37-46 | Reflection leaves the ATR unchanged. |
| `Atr.AtrStaysPositive` | strategy/atr.py:41-46 | Once positive the ATR is positive at every later bar, so a flip always inherits a usable range. |
| `AtrLaw.AtrIs` | strategy/atr.py:37-46 | Times the period: the seed is the sum of the true ranges so far, and every later value is period - 1 times the one before plus the bar's true range, which is the widest of its range and its two gaps from the close before. |
| `AtrLaw.AtrWithin` | strategy/atr.py:37-46 | The ATR never leaves the interval of the true ranges it has seen. |
| `FisherCycle.VisiblePrefix` | strategy/fisher_cycle.py:38-48 | On a chronological list the visible daily bars are the prefix of those that have closed by the given time, that moment included. |
| `FisherCycle.VisibleEarlier` | strategy/fisher_cycle.py:38-48 | What is visible at an earlier time is determined by what is visible later. |
| `CycleMachine.RunFisherCycle` | backtest.py:718-797 | The loop over precomputed series reports exactly the legs of the step function folded over the bars, an open leg flushed as unresolved. |
| `CycleMachine.Bar` | backtest.py:741-784 | One pass of the loop body (stop, macro break, exhaustion flip, re-arm) is one step of the machine. |
| `CycleCausality.NoLookahead` | backtest.py:718-797 | On any prefix, with any daily series that agrees on what had closed by then, the run's legs are exactly those of the full run that exit inside the prefix, and its open leg is the full run's next leg with the same cycle id. |
| `CycleMirror.ManageMirror` | backtest.py:748-770 | The open leg's turn commutes with reflection. |
| `CycleMirror.CycleRunMirror` | backtest.py:718-797 | Reflecting both price series gives the same legs with LONG and SHORT swapped, the same bars, reasons and cycle ids, and equal gross R. |
| `CycleGrammar.CycleRunGrammar` | backtest.py:735-797 | A list of legs is the reported one if and only if: each leg follows its predecessor as the rules demand (after a flip the opposite way on the same bar at the same price; otherwise at the first bar since that is free to open and qualifies, along its bias; the cycle id is kept exactly while no bar since a stop had another bias), ends at the first bar that gives a reason and for the first such reason, only the last may be unresolved, and a flat end missed no opening. |
| `CycleGrammar.GrammarUnique` | backtest.py:735-797 | Any two lists that obey this grammar over the same readings are equal. |
| `CycleLegs.EveryLeg` | backtest.py:735-784 | Every reported leg of every run, over the readings: entered at the close of a bar with positive ATR past the warm-up of 40, the stop the multiple of it away, on a pullback (a long at BULLISH with Fisher at or below minus the threshold, a short at BEARISH with Fisher at or above it), or where a flip has just closed the opposite leg; and left at the first bar that trades at the stop, changes the bias, or carries Fisher to the leg's far threshold, in this order, at the stop or at the close. |
| `CycleLegs.NonePassedOver` | backtest.py:741-784 | Every pullback past the warm-up with a positive ATR is entered, or finds a leg open or closing by stop or flip on that bar. |
| `CycleLegs.LegResultIs` | backtest.py:696-715 | With the risk the absolute multiple of the entry bar's ATR: gross R times the risk is the move in the leg's favour, net R times it the same less 0.075 percent of entry and exit; both are zero without a risk. |
| `CycleLegs.ReadingIs` | backtest.py:726-740 | What a bar shows: its prices, the 10-bar Fisher value, the 14-bar ATR, and the structural bias (width 2, lookback 20) of the daily bars closed by its close. |
| `CycleGrammar.CounterBiasOnlyByFlip` | backtest.py:762-784 | A leg against the daily bias is always preceded by an exhaustion flip. |
| `CycleGrammar.CycleIdsDense` | backtest.py:771-784 | Cycle ids are 1..count without gaps. |
| `CycleGrammar.OneBiasPerCycle` | backtest.py:771-784 | All legs of one cycle open under one daily bias, and ids never decrease. |
| `CycleGrammar.LegLossBound` | backtest.py:696-715 | A leg with a positive multiplier risks something, its gross R is at least -1, and it is -1 iff the stop closed it. |
| `CycleGrammar.CycleRunLossBound` | backtest.py:718-797 | The same for every leg of every run over well-formed bars, flips included. |
| `SwingLevels.SortClimbing` | scripts/breakout_continuation.py:91-98 | Sorting the confirmed levels changes nothing: their bars strictly increase. |
| `SwingLevels.SortIsInOrder` | scripts/breakout_continuation.py:96-97 | Sorting any list of levels keeps its members and puts them in order of bar, and of price at the same bar. |
| `SwingLevels.ConfirmedLevels` | scripts/breakout_continuation.py:84-98 | The two lists hold every up-swing end (and every down-swing end), in order, with the bar that confirms it. |
| `SwingLevels.AdvanceCursor` | scripts/breakout_continuation.py:118-121 | The while loop stops exactly past the levels confirmed by bar i; the collected prices are those of all of them. |
| `SwingLevels.ConfirmedIsRecomputed` | scripts/breakout_continuation.py:84-98 | The docstring's claim: filtering whole-series levels by confirmation bar equals detecting swings on bars 0..i afresh. |
| `Breakout.BiasSeries4H` | scripts/breakout_continuation.py:65-81 | Sign j is computed from bars 0..j by either method, with its warm-up of zeros. |
| `Breakout.RunCell` | scripts/breakout_continuation.py:101-181 | The walk with moving cursors and precomputed series yields the closed trades of the walk that recomputes swings at every bar; it raises exactly if a trade would be opened at a close of zero. |
| `BreakoutRuns.SignReadsVisible` | scripts/breakout_continuation.py:147-148 | The bisected sign at time t is that of the 4H bars closed by t, computed from them alone. |
| `BreakoutRuns.PrefixTrades` | scripts/breakout_continuation.py:101-181 | The closed trades of any prefix are exactly those of the full run that exit within it, even when the 4H series differs after the prefix's last close. |
| `BreakoutRuns.EntrySound` | scripts/breakout_continuation.py:146-180 | A trade is opened only with its stop beyond the broken level, positive risk, and a target of at least 2R (exactly 2R under the fixed rule). |
| `BreakoutRuns.EveryTrade` | scripts/breakout_continuation.py:123-146 | In every run trades never overlap; each leaves at the first bar that touches stop or target, by the stop if both were touched, at that price, with its excursion the exact minimum over the bars held. |
| `BreakoutRuns.TradeR` | scripts/breakout_continuation.py:136-143 | A stop costs exactly -1R less fees and a target pays at least 2R less fees, at any non-zero entry price. |
| `BreakoutLaw.EveryOpening` | scripts/breakout_continuation.py:146-180 | Every trade of every run, at its entry bar: bias sign 1 (-1 for a short), previous close not beyond and close beyond the last confirmed swing high (low), enough volume against its average and the floor, positive ATR; entry at the close, stop a quarter of the ATR behind the level, target two risks away or the nearest swing at least that far. |
| `BreakoutLaw.EveryOffer` | scripts/breakout_continuation.py:146-180 | Every bar past the warm-up that offers all of this opens a trade or falls on one, the bar that closes it included. |
| `BreakoutLaw.EveryExit` | scripts/breakout_continuation.py:123-135 | It is left at the first bar whose low or high reaches stop or target, by the stop if both, at that price. |
| `BreakoutLaw.EveryResult` | scripts/breakout_continuation.py:136-143 | It earns the move in its favour less both fees on the entry, in percent of the entry and in units of the risk. |
| `BreakoutLaw.EveryExcursion` | scripts/breakout_continuation.py:123-128 | Its excursion is the deepest move against it after the entry bar, up to the exit bar, or zero. |
| `BreakoutLaw.SignIs` | scripts/breakout_continuation.py:65-81 | Sign j: the 4H close against the mean of the last 50, or the structural bias of the last 300 bars, none before bar 49 or 30. |
| `BreakoutLaw.SceneIs` | scripts/breakout_continuation.py:103-121 | What a bar shows: the close before, the 14-bar ATR, the mean of the last 20 volumes, the sign of the last closed 4H bar, and the ends of the up- and down-swings found on the bars so far. |
| `Signals.ExtensionSkipsNoLevel` | strategy/signals.py:165-183 | An extended target is never nearer than the nearest level, never has a level of its own kind between them, and is that level, an extension or such a level. |
| `Signals.ExtensionDominates` | strategy/signals.py:119-183 | Every input accepted with the nearest target is accepted with the extended one: same direction, entry and stop, no smaller reward/risk. |
| `Signals.BlueSkyOnlyAdds` | strategy/signals.py:151-163 | Every decision reached with extensions, acceptance or suppression, is reached unchanged with the blue-sky model, which differs only where no opposing level exists and ATR is positive. |
| `Signals.HybridAcceptsLess` | strategy/signals.py:74-104 | Whatever the hybrid stop accepts the structural stop accepts, with the same target, a stop no wider and no smaller reward/risk. |
| `Signals.AcceptedSignal` | strategy/signals.py:343-417 | An accepted signal has its stop on the losing side, a ratio of at least two that is the actual reward over risk, and a level target on the winning side. |
| `Signals.StructuralOnLosingSide` | strategy/signals.py:347-356 | With positive level prices the buffered level lies strictly on the losing side of entry. |
| `SignalLaw.DecisionIs` | strategy/signals.py:74-417 | The decision from levels and filters alone: no signal without a common direction, a level behind the close, or a target in front of it; otherwise the nearest level with 0.15 percent to spare (or further, with the hybrid stop), the nearest opposing level or its extension, no signal on zero risk, and the gate's verdict at twice the risk with the filters in the order they are asked. |
| `Outcome.AdvanceFisher` | backtest.py:328-337 | The moving 4H cursor reports a crossing iff one lies in the interval the bar closes, and ends at the first unclosed 4H bar. |
| `Outcome.SimulateOutcome` | backtest.py:256-343 | The result is the declarative one: first bar that touches stop or target (stop first) or whose closing interval holds a crossing, at that bar's price; open iff there is none; raises only without a series or on zero risk. |
| `Outcome.OutcomeUnique` | backtest.py:320-343 | The declarative rule admits exactly one outcome. |
| `Outcome.OccupiedZoneMustBeLeft` | backtest.py:275-284 | An exhaustion exit from a zone already occupied at entry has a later 4H bar outside the zone before the crossing. |
| `Outcome.GrossOfExit` | backtest.py:300-311 | A stop exit is exactly -1R gross, a target exit exactly the signal's reward/risk. |
| `OutcomeLaw.OutcomeIs` | backtest.py:256-343 | What an outcome says of the candles: no bar between entry and exit trades at stop or target with its low or high, nor closes on a 4H bar turning into extended territory; a stop exit's bar trades at the stop; a target exit's at the target and not at the stop; an exhaustion exit's at neither. |
| `OutcomeLaw.FirstTouchEnds` | backtest.py:320-327 | The first bar whose low or high reaches one of the two prices ends the trade there, by the stop if both, unless an exhaustion came first. |
| `OutcomeLaw.OutcomeEarns` | backtest.py:300-311 | R times the risk is the move in the trade's favour, net of 0.075 percent on entry and exit. |
| `WalkForward.SimulateEntry` | backtest.py:515-523 | The entry's trade is what its simulator's rule says of the bar's signal, entered at that bar; it raises exactly on a trade without risk that some bar ends, on a hold with a zero entry, or without the S/R levels its model needs. |
| `WalkForward.Walk` | backtest.py:465-528 | Trades never overlap, an unresolved trade is unique and last, each is its simulator's outcome for a newly aligned accepted signal, and every such signal is taken unless a trade was open at its bar; it raises exactly without the 4H series its exit needs or at an entry it comes to whose simulation raises. |
| `WalkForward.TradesUnique` | backtest.py:472-528 | That contract leaves no choice: the trades before a bar are the beginning of every longer list that meets it. |
| `WalkLaw.WalkIs` | backtest.py:465-528 | From bar 40 on: every trade enters at a bar whose signal is accepted and whose alignment is not that of the last evaluated bar, is its simulator's result for that signal, and has ended before the next enters; every such bar is an entry or falls on a trade that began before and has not ended before it. |
| `NoStop.FavourableNow` | backtest.py:201-240 | The running flags and extremes decide each model's favourable exit as its closed form over the bars held does. |
| `NoStop.SimulateNoStop` | backtest.py:139-253 | Closed at the first bar with an exit, a favourable one before the brake, with the exact adverse excursion; open iff there is none; the three error cases exactly. |
| `NoStop.HoldUnique` | backtest.py:196-253 | The declarative rule admits exactly one result. |
| `NoStop.BrakeBounds` | backtest.py:242-245 | Under all five models the trade closes no later than the first bar whose last closed 4H bias is not the opening one; a bias_flip exit is that bar. |
| `NoStop.ExcursionIsMinimum` | backtest.py:198-200 | The reported MAE is the minimum of zero and every adverse excursion through the exit bar. |
| `NoStop.TrailingFloor` | backtest.py:231-240 | Every trailing exit has gross R of at least the arming move less the trailing distance. |
| `NoStop.FirstProfitNet` | backtest.py:184-213 | Under both profit models the trade leaves at the first ready close beyond the trigger price not preceded by the brake, and is net-profitable if and only if that close lies outside the fee band: for a long above entry*(1+f)/(1-f), for a short always. |
| `NoStop.FirstProfitCanLose` | backtest.py:184-213 | A two-bar series on which both profit models exit a long, by the trigger, at a loss. |
| `NoStopLaw.HoldIs` | backtest.py:139-253 | For a positive entry, over candles and 4H series: nothing to act on at any bar before the exit; a favourable exit is the model's own (close above entry by 0.15 percent, after the threshold in risks; target reached; a close back below a level traded into; the trail touched), a brake exit a close at which the last closed 4H bias is another and the model had none. |
| `NoStopLaw.HoldEarns` | backtest.py:181-200 | R times the risk is the move less fees on entry and exit, zero without risk; the excursion times the entry is the deepest move against the trade while held, or zero. |
| `TrendRules.SmaPositions` | strategy/trend_rules.py:16-27 | The running sum that drops the leaving close decides every bar as the mean of its own window does. |
| `TrendRules.WindowShift` | strategy/trend_rules.py:16-34 | Both rules decide a bar the same in any window that reaches their lookback behind it. |
| `ForwardTest.PositionShift` | forward_test.py:61-65 | With 60 bars of history every track's decision is independent of where the window starts. |
| `ForwardTest.Rule` | forward_test.py:61-65 | Each track's series is its decision at every bar. |
| `ForwardTest.MarkTable.LastMark` | forward_test.py:128-133 | The newest row's time and equity, or nothing for an empty table. |
| `ForwardTest.MarkTable.InsertMark` | forward_test.py:136-148 | Inserts if absent, never overwrites, and says which. |
| `ForwardTest.MarkTable.Tick` | forward_test.py:151-205 | One undisturbed tick leaves exactly the rows and alerts of the pure tick function and tells whether there is an inception to announce; it raises exactly on too few bars or at a new bar without a log return, keeping the rows before that bar. |
| `ForwardTest.MarkTable.MarkFrom` | forward_test.py:185-205 | The loop writes one row per bar newer than the last mark, carrying equity, alerting each inserted flip once, up to the first bar whose logarithm raises. |
| `ForwardTest.RunTableKeys` | forward_test.py:151-205 | The uninterrupted run's table has one row per bar from inception, newest last. |
| `ForwardTest.TickHeals` | forward_test.py:18-21 | From any point, one tick over any window reaching 60 bars behind the newest row brings the table to where the uninterrupted run would be at the last bar it gets through, the window's last unless a return has no logarithm; a rerun writes nothing. What that means for the number of missed bars is `DowntimeHealed`. |
| `ForwardTest.TickRefusesGap` | forward_test.py:180-184 | A gap beyond the window's history changes nothing. |
| `ForwardTest.DowntimeHealed` | forward_test.py:18-21 | A fetch of the last n bars brings the table to the newest bar if and only if at most n - 61 bars were missed, and beyond that leaves it as it was. |
| `ForwardTest.DowntimeLimit` | forward_test.py:155-184 | With the 300 bars a tick asks for, 239 missed bars heal, and 240 to 270 do not. |
| `ForwardTest.FirstTick` | forward_test.py:167-178 | The first tick starts the run at the newest bar of its window. |
| `ForwardTest.ReportIsCurrent` | forward_test.py:289-294 | The position the report shows is the one the rule decided at the newest bar, inception row included. |
| `ForwardTest.BuyHoldTracksPrice` | forward_test.py:185-193 | Benchmark equity is the stake net of one fee times the price ratio since inception, at every bar of any run. |
| `EquityLaw.EquityIs` | forward_test.py:185-193 | For every track, over whole runs with positive closes: equity is the start times exp of minus one fee per change of position (and per long start) times the product of close over previous close on the bars entered long, the positions being given by the closes. |
| `EquityLaw.HeldRow` | forward_test.py:185-193 | Every later row: the position decided one bar before earns the bar's log return, a change at this close pays 0.00075, and equity moves by exp of the two. |
| `EquityLaw.TurnCostsFee` | forward_test.py:185-193 | A bar at which a flat rule turns long moves equity by the fee alone, whatever its close. |
| `EquityLaw.PositionIs` | strategy/trend_rules.py:7-35 | The tracks hold one exactly where the close beats that of 30 bars ago, where it beats the mean of the last 50, and always. |
| `MarkingProtocol.StepKeepsAlerts` | forward_test.py:193-202 | Any step of any worker keeps all alerts, sent or owed, on different flip rows. |
| `MarkingProtocol.EveryInterleaving` | forward_test.py:18-21 | Under any interleaving of reads, single inserts, alerts, crashes and restarts of any number of workers whose first rows fall on one bar, or on two adjacent bars with the rule flat at both and a log return between them, the table is always that of a run which gets so far, and no alert repeats. |
| `MarkingProtocol.AfterInception` | forward_test.py:18-21 | Once a row exists nothing is asked of further steps, whatever they read; workers that had found the table empty must still hold windows as in the row above. |
| `MarkingProtocol.GapFree` | forward_test.py:151-205 | The marked bars are a gap-free range from an inception bar, every later one with a log return, and every row equals the uninterrupted run's. |
| `MarkingProtocol.RebasedTable` | forward_test.py:185-193 | With the rule flat at two adjacent bars the runs that start at them differ in the earlier row only. |
| `SoloTick.UndisturbedTick` | forward_test.py:151-205 | The protocol's read and per-bar steps of one undisturbed worker give exactly the rows and alerts of a tick: on an empty table, one too old, one in between, and where the tick breaks. |
| `RacingInceptions.RaceIsRunIff` | forward_test.py:167-178 | Any number of workers, any windows, any insertion order, any crashes: the race leaves the table of an uninterrupted run if and only if the bars inserted at form one gap-free range which, if it has several bars, is flat throughout and has a log return at each bar after its first. |
| `RacingInceptions.TwoRacers` | forward_test.py:167-178 | Two workers in either order: if and only if their windows end at one bar, or at adjacent bars with the rule flat at both and a log return between them. |
| `RacingInceptions.RaceLeavesGap` | forward_test.py:167-178 | Concrete race: windows ending two bars apart, in either order, leave a table without the bar between, which no run leaves. |
| `RacingInceptions.HarmlessRace` | forward_test.py:18-21 | After such a race, all having inserted, the protocol's invariant holds and every later step keeps it. |
| `NeweyWest.FiredPositions` | scripts/factor_correlation_study.py:388-390 | The rows are distinct, in range and exactly those where every condition is true; an undefined factor never fires. |
| `NeweyWest.AutoCov` | scripts/factor_correlation_study.py:300-304 | The inner loop sums the products over the fired rows whose partner fired too. |
| `NeweyWest.SparseIsDense` | scripts/factor_correlation_study.py:298-304 | The dictionary computation equals the dense zero-padded autocovariance at every lag. |
| `NeweyWest.BartlettIsSquares` | scripts/factor_correlation_study.py:297-305 | (lag+1) times the Bartlett-weighted sum is a sum of squared sliding-window sums. |
| `NeweyWest.VarianceNonNegative` | scripts/factor_correlation_study.py:297-306 | The accumulated variance is never negative, for all rows, returns and lags. |
| `NeweyWest.Variance` | scripts/factor_correlation_study.py:297-305 | The accumulation loop computes the Bartlett-weighted dense sum. |
| `NeweyWest.NwConditionalMean` | scripts/factor_correlation_study.py:283-308 | Mean, hit rate, and a standard error whose square times n squared is that variance, with t its quotient; infinite (None) exactly for fewer than two rows or zero variance; with lag 0 the variance is the sum of squared deviations over the fired rows. |
| `NeweyWest.LagZeroIsClassical` | scripts/factor_correlation_study.py:283-288 | With lag 0 the zero-padded weighted sum over all rows is the plain sum of squared deviations over the fired rows, as the docstring promises. |
| `CellLaw.FiredIs` | scripts/factor_correlation_study.py:388-390 | Without a condition every row fires; one more condition keeps the rows on which it is true. |
| `CellLaw.MeanIs` | scripts/factor_correlation_study.py:286-294 | The mean times the number of fired rows is the sum of their returns over all rows, and the hits are the fired rows with a positive return. |
| `CellLaw.VarianceIs` | scripts/factor_correlation_study.py:297-305 | (lag+1) times the variance is the sum, over all runs of lag+1 neighbouring rows, of the squared sum of their deviations from the mean, rows that did not fire counting zero. |
| `Correlation.CorrelationMatrix` | scripts/blockstats.py:109-123 | Every cell of the loop-built matrix is the correlation of its two streams, with constants correlated with themselves only. |
| `Correlation.CorrBounded` | scripts/blockstats.py:109-123 | Every entry lies in [-1, 1], constant streams included. |
| `Correlation.CorrDiagonal` | scripts/blockstats.py:109-123 | Every diagonal entry is 1. |
| `Correlation.CorrelationPSD` | scripts/blockstats.py:109-123 | The quadratic form of the matrix is non-negative for every weighting of the streams. |
| `Correlation.BetsInRange` | scripts/blockstats.py:126-136 | The participation ratio lies in [1, N]; the equicorrelation denominator times N is the matrix total, so it is never negative, and zero exactly when that total is. |
| `RawMoments.CoSumIs` | scripts/blockstats.py:112-122 | n times the inner product of the deviations is n times the sum of the products less the product of the sums. |
| `RawMoments.MatrixIs` | scripts/blockstats.py:109-123 | Every cell from the values of its streams: zero or one where a moment vanishes, otherwise of the mixed moment's sign with its square the share of the mixed moment in the two others. |
| `RawMoments.BetsAre` | scripts/blockstats.py:126-136 | Participation is n squared over the sum of squared cells, rho-bar the mean of the cells off the diagonal, and the equicorrelation figure n over 1 + (n-1) rho-bar, absent where that is not positive. |
| `Ranks.OrderSorted` | scripts/factor_correlation_study.py:245-246 | The sorted order lists every position once, values ascending. |
| `Ranks.TieRank` | scripts/factor_correlation_study.py:247-254 | The average position of a maximal tie group is (count smaller) + (count equal + 1)/2. |
| `Ranks.AverageRanks` | scripts/factor_correlation_study.py:243-256 | The tie-group walk gives every element the rank (count smaller) + (count equal + 1)/2. |
| `Ranks.RanksSum` | scripts/factor_correlation_study.py:243-256 | Ties or not, the ranks of n values sum to n(n+1)/2. |
| `Ranks.RanksInvariant` | scripts/factor_correlation_study.py:243-256 | Any strictly increasing transform leaves every rank in place. |
| `Ranks.RanksReversed` | scripts/factor_correlation_study.py:243-256 | A strictly decreasing transform reflects every rank about (n+1)/2. |
| `Ranks.RootVanishes` | scripts/factor_correlation_study.py:259-267 | The square root that pearson divides by is zero only in the two guarded cases. |
| `Ranks.PearsonBounded` | scripts/factor_correlation_study.py:259-267 | A correlation never leaves [-1, 1]. |
| `Ranks.PearsonReflected` | scripts/factor_correlation_study.py:259-267 | Reflecting one series about any constant negates the correlation. |
| `RawMoments.PearsonIs` | scripts/factor_correlation_study.py:259-267 | The same from the values of the two series, zero where one is constant. |
| `Ranks.SpearmanInvariant` | scripts/factor_correlation_study.py:270-271 | Rank correlation is unchanged by strictly increasing transforms of either series. |
| `Ranks.SpearmanReversed` | scripts/factor_correlation_study.py:270-271 | Reversing one series' order negates it. |
| `Sizing.TruncationBounds` | risk/sizing.py:30-35 | Truncation goes down, never below zero, by less than one venue step, onto the grid. |
| `Sizing.TruncationIdempotent` | risk/sizing.py:30-35 | Truncating twice is truncating once. |
| `Sizing.AttenuationBounds` | risk/sizing.py:38-54 | Defined iff alpha is at least 1; in [0, 1]; zero at or below the floor; at most the cushion's share of the peak's cushion; 1 for a stale peak. |
| `Sizing.StopLossWithinBudget` | risk/sizing.py:78-106 | The loss at the stop of an accepted size never exceeds equity times risk times attenuation. |
| `Sizing.OneStopOut` | risk/sizing.py:78-106 | One stop-out keeps at least the share 1 - r*peak/(peak-floor) of the cushion. |
| `Sizing.StopOutsKeepCushion` | risk/sizing.py:1-17 | After any n consecutive worst-case stop-outs, each sized on what is left, equity is strictly above the floor and the cushion at least its n-th power share. |
| `Sizing.BudgetAtPeak` | risk/sizing.py:78-106 | At the peak the full budget leaves the floor uncrossed if and only if floor is below peak*(1-risk). |
| `Sizing.TierSatisfiesHypothesis` | risk/challenge.py:47-54 | Static and trailing tiers meet that condition when the drawdown percentage exceeds the risk percentage. |
| `Sizing.TierSurvivesEveryRun` | risk/challenge.py:27-63 | For a valid tier with a limit above 1%, no sequence of orders whatever, all stopped out, reaches its drawdown floor. |
| `SizingLaw.BindingFloorIs` | risk/challenge.py:47-63 | In hundredths: the higher of the day's start less the daily percentage of the initial balance and of what is left of the initial balance, or of a higher high-water mark on a trailing tier, after the drawdown percentage. |
| `SizingLaw.SizeIs` | risk/sizing.py:38-106 | A size is refused for five causes only; otherwise the risk is equity times risk times a power of the cushion's share (one at a stale peak, zero at the floor), and the quantity is the largest on the venue's grid that loses no more than that at the stop. |
| `SizingLaw.ApprovesIff` | risk/gate.py:65-116 | The gate approves exactly with an active engine, a reward of twice the risk, a free place, an accepted size of at least 0.001, and equity after the stop above the floor, as the numbers above, plus the buffer. |
| `RiskGate.EvaluateGate` | risk/gate.py:50-116 | Each named reason is present iff its condition holds, approval iff there is none, that is iff the engine is active, the reward suffices, a place is free and the stopped-out order clears floor plus buffer at no less than the venue minimum. |
| `RiskGate.ApprovedStopClearsFloors` | risk/gate.py:95-103 | An approved order filled at its stop leaves equity above the daily and the drawdown floor by the buffer. |
| `RiskGate.DayOfStopOuts` | risk/gate.py:50-116 | Orders that clear the gate one after the other, each stopped out before the next, never breach either floor, and each costs at least the venue minimum times the stop distance. |
| `OpenTogether.DayOneAtATime` | risk/gate.py:50-116 | With max_concurrent at most one, on every day of submissions to the gate and stop-outs, in any order, at most one position is open and equity stays above both floors plus the buffer from the first approval on, the open position stopped out included; every approval costs at least the venue minimum times the least stop distance. |
| `OpenTogether.DayWithinMargin` | risk/gate.py:79-103 | With any max_concurrent m, on every such day equity less all open losses stays above floor plus buffer less (m-1) percent of the day's first equity. |
| `OpenTogether.TogetherIff` | risk/gate.py:79-103 | No choice of k orders that the gate clears on one state of the account reaches the binding floor, all stopped out, if and only if k times the risk budget is below the distance to the floor; where the full budget is too large for a single order, if and only if k times the room of one order is within that distance or even the smallest loss the truncation can reach is too large (or nothing is risked at all). |
| `OpenTogether.StoppedTogether` | risk/gate.py:79-103 | With k places free the gate approves k such orders one after the other on that state, and stopped out they leave equity less their losses. |
| `OpenTogether.TwoOpenBreach` | telegram_control/handlers.py:260-270 | Concrete day with max_concurrent 2: two one-percent orders are approved, and their stops leave 98000 under a daily floor of 98400. |
| `Dca.RunConfigDca` | scripts/track4_mean_reversion.py:167-258 | The bar loop returns the episodes of the pure step function, the open one last at the final close, for any lookback; it raises exactly on a zero price or average in the position and on an empty window in the divergence check. |
| `DcaRuns.EveryEpisode` | scripts/track4_mean_reversion.py:189-258 | In every run each episode opens at the first free bar whose Fisher value and bias open one, has at most 1 + max_adds tranches at their bars' closes, buys at every bar that gives its trigger's reason while it is not full and at no other (a deeper Fisher level; a new low with a Fisher value less extreme than at the last recorded low; a turn up from a new Fisher minimum), leaves without buying at the first bar that meets an exit, and reports the exact worst excursion; a walk that holds nothing missed no opening. |
| `DcaRuns.EpisodesUnique` | scripts/track4_mean_reversion.py:189-258 | These rules leave no choice: any two books that meet them agree in every settled and in the open episode, in all that is reported. |
| `DcaRuns.TrancheBarsIncrease` | scripts/track4_mean_reversion.py:210-234 | Tranche bars strictly increase. |
| `DcaRuns.HarmonicMean` | scripts/track4_mean_reversion.py:191-203 | For positive prices the sum times the sum of reciprocals is at least the square of their number. |
| `DcaRuns.BlendedUnderstates` | scripts/track4_mean_reversion.py:191-203 | The blended-entry profit never exceeds that of equal-notional tranches at the same fees. |
| `DcaRuns.ReversionIsProfitable` | scripts/track4_mean_reversion.py:197-208 | In every run every reversion exit is profitable for equal-notional tranches. |
| `DcaLaw.SettledIs` | scripts/track4_mean_reversion.py:189-212 | With positive closes, every settled episode: kept at every bar whose close times the number of tranches is at most 1.0015 times what was paid and whose Fisher value is below 1.5, and sold at the close of the first other one; the average is what was paid per tranche, the result the close over it less 0.15 percent. |
| `DcaLaw.ExcursionIs` | scripts/track4_mean_reversion.py:191-196 | Its two excursions are the lowest sums over the tranches bought before a bar of that bar's low over the price paid less one, in all and per tranche, or zero. |
| `DcaLaw.NeverRaises` | scripts/track4_mean_reversion.py:189-223 | With positive closes, and no empty window for the divergence check, the walk never raises. |
| `DcaLaw.RaisesAt` | scripts/track4_mean_reversion.py:189-223 | Otherwise a bar raises exactly if a tranche held cost zero, all together did, or the divergence check comes to an empty window. |
| `DcaLaw.ViewIs` | scripts/track4_mean_reversion.py:217-218 | A bar shows its own low, close and Fisher value and the lowest low of the slice of lookback bars that ends with it, a start before the series counted from its end, if there is a bar in the slice. |
| `Admission.Gate` | scripts/trend_let_winners_run.py:90-108 | Admitted entries are those of the pure book; admitted plus skipped is the input; each mode uses its own counter, and utilisation counts the admitted entries that came in while an earlier admitted position was still held. |
| `Admission.CapRespected` | scripts/trend_let_winners_run.py:90-108 | No bar ever sees more than cap admitted positions alive, in whatever order entries come. |
| `Admission.SingleModeDisjoint` | scripts/trend_let_winners_run.py:90-108 | In single mode each position exits strictly before the next enters. |
| `Admission.SkippedMetFullBook` | scripts/trend_let_winners_run.py:90-108 | For sorted entries every skipped one met exactly cap positions alive on its entry bar. |
| `Admission.SkippedMetOpenPosition` | scripts/trend_let_winners_run.py:90-108 | In single mode every skipped one met an open position. |
| `Admission.CombinedExposure` | scripts/trend_let_winners_run.py:111-132 | The sweep's three figures bound every bar of the series and are attained, or zero; it raises exactly if a position that lives beyond its entry bar has no entry price or no risk. |
| `Admission.ExposureRespectsCap` | scripts/trend_let_winners_run.py:111-132 | Its reported maximum concurrency respects the cap. |
| `ExposureLaw.AdmittedIff` | scripts/trend_let_winners_run.py:90-108 | An entry joins the book exactly if fewer than cap positions of it (none, in single mode) have not exited before the entry bar. |
| `ExposureLaw.JoinedIs` | scripts/trend_let_winners_run.py:96-103 | The utilisation is the number of admitted positions that an earlier one had not left before their entry bar. |
| `ExposureLaw.ExposureIs` | scripts/trend_let_winners_run.py:111-132 | The three figures, over every bar, of the positions entered before it and not closed before it: their number, and the sums of the bar's worst move against them in fractions of entry and in risks; each bounds all bars and is attained, or zero. |
| `Guardian.Watcher.constructor` | guardian.py:52-69 | A guardian starts with neither flag set and no date. |
| `Guardian.Watcher.OnEquity` | guardian.py:87-131 | One event: rollover, hard check first, then soft; new fields, engine state and kill count stated in full. |
| `Guardian.Watcher.MaybeRollover` | guardian.py:133-143 | The soft flag re-arms on a later date unless flattened; the first event only sets the date. |
| `Guardian.Watcher.ObserveHwm` | guardian.py:74-78 | The local mark only rises. |
| `Guardian.Watcher.SetDayStart` | guardian.py:145-146 | Only the day-start figure changes. |
| `Guardian.Watcher.Watch` | guardian.py:87-143 | A whole stream of events leaves the watcher, the engine state, the actions and the kill count as the pure transition says. |
| `Guardian.KillAtFirstBreach` | guardian.py:98-116 | In every event stream the kill sequence runs exactly at the first event with equity at or below floor + 200, and the engine is then KILLED. |
| `Guardian.KillAtMostOnce` | guardian.py:98-116 | It runs at most once. |
| `Guardian.KillsIffBreached` | guardian.py:98-116 | The count over a stream is one if some event breached and zero otherwise. |
| `Guardian.SoftHaltExactly` | guardian.py:118-131 | With dates that never go back a soft halt happens iff the event is within 500 of the floor, nothing breached so far, and no earlier event of its date was. |
| `Guardian.SoftHaltOncePerDate` | guardian.py:118-143 | At most one soft halt a date, none after a flatten. |
| `Guardian.GuardianNeverUnkills` | guardian.py:1-17 | No guardian step replaces KILLED; it writes PAUSED only over ACTIVE. |
| `Guardian.KilledUntilOperator` | guardian.py:1-17 | After the flatten KILLED holds if and only if the operator has given no command since, or KILLED last. |
| `Guardian.EngineAfterKill` | guardian.py:98-143 | After the flatten both flags stay set and the engine state is the operator's last command since, KILLED if there was none. |
| `Guardian.InertAfterKill` | guardian.py:98-131 | No later event is acted on, however deep the breach, even with the engine reactivated. |
| `Guardian.PauseUnkills` | telegram_control/handlers.py:118-122 | Concrete stream: PAUSED replaces KILLED without a confirmed restart, and then an active engine breaches its floor without an action. |
| `GuardianLaw.KillIs` | guardian.py:71-116 | Over the events alone: a fresh guardian kills exactly at the first equity within 200 dollars of the floor that the latest day start and the ratcheted or latest stored mark give at that event. |
| `GuardianLaw.SoftHaltIs` | guardian.py:118-143 | And halts softly exactly at a date's first equity within 500 dollars while none has been within 200; an active engine is then PAUSED, any other left as it is. |

## Left out

- BiasMirror.ComputeBiasMirror: one direction only; a double fractal may lie too far back to matter to the bias, so its absence is sufficient, not necessary (for the swings themselves `SwingsMirrorIff` is exact).
- CycleMirror.CycleRunMirror: compares gross R, because fees are charged on price levels and do change under reflection.
- MarkingProtocol.EveryInterleaving: first rows at one bar or at two adjacent flat bars; three or more racing bars are covered by `RaceIsRunIff` only once all have inserted, because in between the table may have a gap.
- ForwardTest.MarkTable.Tick: one table per strategy and symbol, since the strategy is part of the key; the texts of messages are not modelled.
- OpenTogether.DayWithinMargin: equity is that of closed positions, and a position leaves at its stop; profits, which raise equity, and slippage beyond the stop are not part of the day.
- WalkForward.Walk: what evaluate_signal says of a bar is an input, and the counts of suppressed signals are not modelled.
- NoStop.SimulateNoStop: a zero entry price is reported as the division error it raises at the first bar held.
- Breakout.RunCell: timestamps are not formatted.
- Dca.RunConfigDca: add gaps and rounded Fisher readings, which are only reported, are not modelled, and percentages are kept as fractions.
- Signals.HybridAcceptsLess: S/R prices are taken to be positive; with a negative level the buffer would move the structural stop to the wrong side.
- Sizing.StopOutsKeepCushion: equity starts at or below the peak and the peak does not move during the losses; truncation digits are natural numbers.
- Guardian.SoftHaltExactly: steps are atomic, the kill call returns, and the equity reading is an input; the mark returned when telemetry is written is an event with an arbitrary value, so nothing is claimed about monotonicity of the local mark across it.
- The fourth forward track (mean reversion on 4H bars): its Fisher recursion restarts at each window's left edge, so its marks do depend on the window.
- The paper ledger's own sizing, which has no attenuation, and manual entries.
- The confluence votes (RSI, Ichimoku, on-balance volume), the stand-down percentiles and the counter-trend walk: their results are inputs or unrelated to the modelled walks.
- Single-entry Track 4 backtests, the no-stop breakout variant, quintile tables, shift calibration, bootstraps, deflated Sharpe ratios and numpy studies: straight-line metrics or variants of modelled loops.
- HTTP, WebSocket, Postgres and Telegram transport, configuration parsing, printing, JSON output and the dashboards; a table is a map and a fetch is a window of an immutable history.
- Floating-point rounding and the rounding of printed figures.
