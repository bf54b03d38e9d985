/** forward_test.py: what a marked table is worth. The equity of a row in terms of the closes and of
    the positions decided at them: a position held into a bar earns that bar's return, and every
    change of position pays one fee. */
module EquityLaw {
  import opened Market
  import opened Trigger1H
  import opened TrendRules
  import opened ForwardTest

  /** exp turns sums into products. */
  ghost predicate IsExp(math: Math) {
    forall x, y :: math.exp(x + y) == math.exp(x) * math.exp(y)
  }

  // ----- the positions, from the closes

  /** Each track's rule at bar j: above the close of 30 bars ago; above the mean of the last 50
      closes; always. */
  predicate LongAt(track: Track, cs: seq<Candle>, j: nat)
    requires j < |cs|
  {
    match track
    case Tsmom30 => j >= 30 && cs[j].close > cs[j - 30].close
    case Sma50 => j >= 49 && 50.0 * cs[j].close > LastCloses(cs, j, 50)
    case BuyHold => true
  }

  /** The sum of the n closes that end with bar j. */
  function LastCloses(cs: seq<Candle>, j: nat, n: nat): real
    requires n <= j + 1 <= |cs|
  {
    if n == 0 then 0.0 else LastCloses(cs, j, n - 1) + cs[j + 1 - n].close
  }

  lemma {:induction false} LastClosesIs(cs: seq<Candle>, j: nat, n: nat)
    requires n <= j + 1 <= |cs|
    ensures LastCloses(cs, j, n) == Total(Closes(cs), j + 1 - n, j + 1)
  {
    if n > 0 {
      LastClosesIs(cs, j, n - 1);
      TotalDropFirst(Closes(cs), j + 1 - n, j + 1);
    }
  }

  /** The position is one where the rule is long and zero elsewhere. */
  lemma {:induction false} PositionIs(track: Track, cs: seq<Candle>, j: nat)
    requires j < |cs|
    ensures Position(track, cs, j) == if LongAt(track, cs, j) then 1 else 0
  {
    if track == Sma50 && j >= 49 {
      hide Total, LastCloses;
      LastClosesIs(cs, j, 50);
      var sum, mean := LastCloses(cs, j, 50), Total(Closes(cs), j - 49, j + 1) / 50.0;
      assert mean * 50.0 == sum;
    }
  }

  // ----- the law

  predicate FlipsAt(track: Track, cs: seq<Candle>, j: nat)
    requires 1 <= j < |cs|
  {
    LongAt(track, cs, j) != LongAt(track, cs, j - 1)
  }

  /** Fees paid from bar b to bar i: one to start long, one for each change since. */
  function Fees(track: Track, cs: seq<Candle>, b: nat, i: nat): nat
    requires b <= i < |cs|
  {
    if i == b then if LongAt(track, cs, b) then 1 else 0
    else Fees(track, cs, b, i - 1) + if FlipsAt(track, cs, i) then 1 else 0
  }

  /** The product of close to close over the bars after b, up to i, that were entered long. */
  function Growth(track: Track, cs: seq<Candle>, b: nat, i: nat): real
    requires b <= i < |cs| && forall k | 0 <= k < |cs| :: cs[k].close > 0.0
  {
    if i == b then 1.0
    else Growth(track, cs, b, i - 1) * if LongAt(track, cs, i - 1) then cs[i].close / cs[i - 1].close else 1.0
  }

  lemma {:induction false} StartRow(math: Math, track: Track, cs: seq<Candle>, b: nat)
    requires b < |cs|
    ensures var row, long := RunMark(math, track, cs, b, b), LongAt(track, cs, b);
            && row.close == cs[b].close && row.position == (if long then 1 else 0) && row.flipped == long
            && row.net == (if long then -0.00075 else 0.0)
            && row.equity == 100000.0 * math.exp(row.net)
  {
    hide LongAt, Position;
    PositionIs(track, cs, b);
    assert -FEE * (1 as real) == -0.00075 && -FEE * (0 as real) == 0.0;
  }

  lemma HeldMarkIs(math: Math, prev: real, close: real, was: bool, now: bool, equity: real)
    requires prev > 0.0 && close > 0.0
    ensures var row := HoldMark(math, prev, close, if was then 1 else 0, if now then 1 else 0, equity);
            && row.close == close && row.position == (if was then 1 else 0) && row.flipped == (was != now)
            && row.net == (if was then math.ln(close / prev) else 0.0) - (if was != now then 0.00075 else 0.0)
            && row.equity == equity * math.exp(row.net)
  {
    assert LogReturn(math, prev, close) == math.ln(close / prev);
    hide LogReturn;
  }

  /** Every later row: the position decided one bar before earns the bar's log return, a change at
      this close pays the fee, and nothing of this close's decision is earned yet. */
  lemma {:induction false} HeldRow(math: Math, track: Track, cs: seq<Candle>, b: nat, i: nat)
    requires b < i < |cs| && cs[i - 1].close > 0.0 && cs[i].close > 0.0
    ensures var row, was := RunMark(math, track, cs, b, i), LongAt(track, cs, i - 1);
            && row.close == cs[i].close && row.position == (if was then 1 else 0)
            && row.flipped == FlipsAt(track, cs, i)
            && row.net == (if was then math.ln(cs[i].close / cs[i - 1].close) else 0.0)
                          - (if FlipsAt(track, cs, i) then 0.00075 else 0.0)
            && row.equity == RunMark(math, track, cs, b, i - 1).equity * math.exp(row.net)
  {
    hide LongAt, Position, HoldMark;
    PositionIs(track, cs, i - 1);
    PositionIs(track, cs, i);
    HeldMarkIs(math, cs[i - 1].close, cs[i].close, LongAt(track, cs, i - 1), LongAt(track, cs, i),
               RunMark(math, track, cs, b, i - 1).equity);
  }

  /** Equity is the start, times exp(-fee) for every fee paid, times the growth of the closes over
      the bars entered long; so a bar on which the rule turns long changes it by the fee alone. */
  lemma {:induction false} EquityIs(math: Math, track: Track, cs: seq<Candle>, b: nat, i: nat)
    requires ExpLn(math) && IsExp(math) && b <= i < |cs| && forall k | 0 <= k < |cs| :: cs[k].close > 0.0
    ensures RunMark(math, track, cs, b, i).equity
            == 100000.0 * math.exp(-0.00075 * Fees(track, cs, b, i) as real) * Growth(track, cs, b, i)
    decreases i
  {
    hide LongAt, RunMark, ExpLn, IsExp;
    if i == b {
      StartRow(math, track, cs, b);
      FirstFee(math, LongAt(track, cs, b));
    } else {
      EquityIs(math, track, cs, b, i - 1);
      HeldRow(math, track, cs, b, i);
      OneBarMore(math, START_EQUITY, Fees(track, cs, b, i - 1), Growth(track, cs, b, i - 1),
                 LongAt(track, cs, i - 1), FlipsAt(track, cs, i), cs[i - 1].close, cs[i].close);
    }
  }

  lemma FirstFee(math: Math, long: bool)
    ensures math.exp(if long then -0.00075 else 0.0) == math.exp(-0.00075 * (if long then 1 else 0) as real)
  {
    assert -0.00075 * (1 as real) == -0.00075 && -0.00075 * (0 as real) == 0.0;
  }

  lemma OneBarMore(math: Math, start: real, fees: nat, growth: real, long: bool, flips: bool, prev: real, close: real)
    requires ExpLn(math) && IsExp(math) && prev > 0.0 && close > 0.0
    ensures var net := (if long then math.ln(close / prev) else 0.0) - (if flips then 0.00075 else 0.0);
            start * math.exp(-0.00075 * fees as real) * growth * math.exp(net)
            == start * math.exp(-0.00075 * (fees + if flips then 1 else 0) as real)
               * (growth * if long then close / prev else 1.0)
  {
    hide ExpLn, IsExp;
    var fee, ratio := if flips then 0.00075 else 0.0, close / prev;
    var paid, more := -0.00075 * fees as real, -0.00075 * (fees + if flips then 1 else 0) as real;
    assert more == paid + (-fee);
    ExpOfSum(math, paid, -fee);
    ExpOfNet(math, long, fee, prev, close);
    Rearranged(start, math.exp(paid), growth, math.exp(-fee), if long then ratio else 1.0);
  }

  lemma ExpOfNet(math: Math, long: bool, fee: real, prev: real, close: real)
    requires ExpLn(math) && IsExp(math) && prev > 0.0 && close > 0.0
    ensures math.exp((if long then math.ln(close / prev) else 0.0) - fee)
            == (if long then close / prev else 1.0) * math.exp(-fee)
  {
    hide ExpLn, IsExp;
    if long {
      ExpOfSum(math, math.ln(close / prev), -fee);
      ExpOfLn(math, close, prev);
    } else {
      assert 0.0 - fee == -fee;
    }
  }

  lemma ExpOfSum(math: Math, x: real, y: real)
    requires IsExp(math)
    ensures math.exp(x + y) == math.exp(x) * math.exp(y)
  {
  }

  lemma ExpOfLn(math: Math, close: real, prev: real)
    requires ExpLn(math) && prev > 0.0 && close > 0.0
    ensures math.exp(math.ln(close / prev)) == close / prev
  {
    assert close / prev > 0.0;
  }

  lemma Rearranged(s: real, p: real, g: real, f: real, r: real)
    ensures s * p * g * (r * f) == s * (p * f) * (g * r)
  {
  }

  /** In particular: whatever its close, a bar at which a flat rule turns long moves equity by the
      fee alone. */
  lemma {:induction false} TurnCostsFee(math: Math, track: Track, cs: seq<Candle>, b: nat, i: nat)
    requires b < i < |cs| && cs[i - 1].close > 0.0 && cs[i].close > 0.0
    requires !LongAt(track, cs, i - 1) && LongAt(track, cs, i)
    ensures RunMark(math, track, cs, b, i).equity == RunMark(math, track, cs, b, i - 1).equity * math.exp(-0.00075)
  {
    hide RunMark;
    HeldRow(math, track, cs, b, i);
  }

  /** The tick goes on exactly where the quotient of the closes exists and has a logarithm. */
  lemma LogDefined(prev: real, close: real)
    ensures HasLog(prev, close) <==> prev != 0.0 && close / prev > 0.0
  {
    if prev != 0.0 {
      var q := close / prev;
      assert q * prev == close;
      if prev < 0.0 {
        assert close == -(q * (-prev));
      }
    }
  }
}
