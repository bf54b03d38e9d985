/** forward_test.py: one tick of the marking job, and the table an uninterrupted run writes.
    Rows of different strategies never meet (the strategy is part of the table's key), so one
    table is modelled per track. */
module ForwardTest {
  import opened Market
  import opened TrendRules

  const MIN_HISTORY: nat := 60
  const START_EQUITY: real := 100000.0
  const FEE: real := 0.00075

  datatype Track = Tsmom30 | Sma50 | BuyHold

  /** The two transcendental functions of the equity update. */
  datatype Math = Math(exp: real -> real, ln: real -> real)

  /** A stored row; its key is the bar's open time. */
  datatype Mark = Mark(close: real, position: int, net: real, equity: real, flipped: bool)

  function Position(track: Track, cs: seq<Candle>, j: nat): int
    requires j < |cs|
  {
    match track
    case Tsmom30 => TsmomPosition(Closes(cs), 30, j)
    case Sma50 => SmaPosition(Closes(cs), 50, j)
    case BuyHold => 1
  }

  method Rule(track: Track, cs: seq<Candle>) returns (pos: seq<int>)
    ensures |pos| == |cs|
    ensures forall j | 0 <= j < |cs| :: pos[j] == Position(track, cs, j)
  {
    match track
    case Tsmom30 => pos := TsmomPositions(cs, 30);
    case Sma50 => pos := SmaPositions(cs, 50);
    case BuyHold => pos := seq(|cs|, _ => 1);
  }

  /** log(cur / prev) is defined: the ratio is positive. Otherwise the call raises. */
  predicate HasLog(prev: real, cur: real) {
    (prev > 0.0 && cur > 0.0) || (prev < 0.0 && cur < 0.0)
  }

  function LogReturn(math: Math, prev: real, cur: real): real {
    if HasLog(prev, cur) then math.ln(cur / prev) else 0.0
  }

  /** Start holding p from this bar on; a long start pays the entry fee. */
  function StartMark(math: Math, close: real, p: int): Mark {
    var net := -FEE * p as real;
    Mark(close, p, net, START_EQUITY * math.exp(net), p != 0)
  }

  /** The position held into the bar earns its log return; a flip pays its fee. */
  function HoldMark(math: Math, prev: real, close: real, before: int, now: int, equity: real): Mark {
    var delta := if now >= before then now - before else before - now;
    var net := before as real * LogReturn(math, prev, close) - FEE * delta as real;
    Mark(close, before, net, equity * math.exp(net), delta != 0)
  }

  function InceptionMark(math: Math, track: Track, cs: seq<Candle>, j: nat): Mark
    requires j < |cs|
  {
    StartMark(math, cs[j].close, Position(track, cs, j))
  }

  function NextMark(math: Math, track: Track, cs: seq<Candle>, j: nat, equity: real): Mark
    requires 1 <= j < |cs|
  {
    HoldMark(math, cs[j - 1].close, cs[j].close, Position(track, cs, j - 1), Position(track, cs, j), equity)
  }

  /** INSERT ... ON CONFLICT DO NOTHING */
  function InsertIfAbsent(rows: map<int, Mark>, key: int, mark: Mark): map<int, Mark> {
    if key in rows then rows else rows[key := mark]
  }

  /** Flips are announced, except for the benchmark. */
  predicate Announced(track: Track, mark: Mark) {
    mark.flipped && track != BuyHold
  }

  // ----- the table of one uninterrupted run

  ghost predicate Bars(history: seq<Candle>) {
    forall i, j | 0 <= i < j < |history| :: history[i].openTime < history[j].openTime
  }

  function RunMark(math: Math, track: Track, history: seq<Candle>, b: nat, i: nat): Mark
    requires b <= i < |history|
  {
    if i == b then InceptionMark(math, track, history, b)
    else NextMark(math, track, history, i, RunMark(math, track, history, b, i - 1).equity)
  }

  /** Every bar after b, up to top, has a log return: a run from b gets as far as top. */
  predicate Logged(history: seq<Candle>, b: nat, top: nat)
    requires top < |history|
  {
    forall i | b < i <= top :: HasLog(history[i - 1].close, history[i].close)
  }

  /** The rows of bars b..top. */
  function RunTable(math: Math, track: Track, history: seq<Candle>, b: nat, top: nat): map<int, Mark>
    requires b <= top < |history|
  {
    var mark := RunMark(math, track, history, b, top);
    if top == b then map[history[b].openTime := mark]
    else RunTable(math, track, history, b, top - 1)[history[top].openTime := mark]
  }

  /** Its keys are exactly the open times of bars b..top: gap-free, newest last. */
  lemma {:induction false} RunTableRows(math: Math, track: Track, history: seq<Candle>, b: nat, top: nat, i: nat)
    requires b <= top < |history| && Bars(history) && i < |history|
    ensures var t := RunTable(math, track, history, b, top);
            && (history[i].openTime in t <==> b <= i <= top)
            && (b <= i <= top ==> t[history[i].openTime] == RunMark(math, track, history, b, i))
    decreases top
  {
    if top > b {
      RunTableRows(math, track, history, b, top - 1, i);
    }
  }

  lemma {:induction false} RunTableKeys(math: Math, track: Track, history: seq<Candle>, b: nat, top: nat)
    requires b <= top < |history| && Bars(history)
    ensures var t := RunTable(math, track, history, b, top);
            && history[top].openTime in t
            && (forall k | k in t :: history[b].openTime <= k <= history[top].openTime)
            && |t| == top - b + 1
    decreases top
  {
    hide RunMark;
    if top > b {
      var t := RunTable(math, track, history, b, top - 1);
      RunTableKeys(math, track, history, b, top - 1);
      assert history[top - 1].openTime < history[top].openTime;
    }
  }

  /** A window whose start lies at least 60 bars back decides, and so marks, as the whole
      history does. */
  lemma {:induction false} PositionShift(track: Track, history: seq<Candle>, lo: nat, hi: nat, j: nat)
    requires lo <= hi <= |history| && MIN_HISTORY <= j < hi - lo
    ensures Position(track, history[lo..hi], j) == Position(track, history, lo + j)
  {
    WindowShift(history, lo, hi, 30, j);
    WindowShift(history, lo, hi, 50, j);
  }

  lemma {:induction false} MarkShift(math: Math, track: Track, history: seq<Candle>, lo: nat, hi: nat, j: nat,
                                     equity: real)
    requires lo <= hi <= |history| && MIN_HISTORY <= j < hi - lo
    ensures InceptionMark(math, track, history[lo..hi], j) == InceptionMark(math, track, history, lo + j)
    ensures j > MIN_HISTORY ==>
              NextMark(math, track, history[lo..hi], j, equity) == NextMark(math, track, history, lo + j, equity)
  {
    hide Position, StartMark, HoldMark;
    PositionShift(track, history, lo, hi, j);
    if j > MIN_HISTORY {
      PositionShift(track, history, lo, hi, j - 1);
    }
  }

  // ----- one tick, as a function of the table

  /** What the loop over the fetched bars leaves behind. */
  datatype Marked = Marked(rows: map<int, Mark>, equity: real, alerts: seq<int>, wrote: bool)

  function MarkBar(math: Math, track: Track, cs: seq<Candle>, last: int, j: nat, m: Marked): Marked
    requires 1 <= j < |cs|
  {
    if cs[j].openTime <= last then m else
    var mark := NextMark(math, track, cs, j, m.equity);
    var key := cs[j].openTime;
    Marked(InsertIfAbsent(m.rows, key, mark), mark.equity,
           if key !in m.rows && Announced(track, mark) then m.alerts + [key] else m.alerts,
           m.wrote || key !in m.rows)
  }

  function MarkBars(math: Math, track: Track, cs: seq<Candle>, last: int, n: nat, m: Marked): Marked
    requires 1 <= n <= |cs|
  {
    if n == 1 then m else MarkBar(math, track, cs, last, n - 1, MarkBars(math, track, cs, last, n - 1, m))
  }

  /** Bar j is old, or its return has a logarithm. */
  predicate CanMark(cs: seq<Candle>, last: int, j: nat)
    requires 1 <= j < |cs|
  {
    cs[j].openTime <= last || HasLog(cs[j - 1].close, cs[j].close)
  }

  /** The loop gets through bars 1..r-1 of the first n: all of them, or up to the first that
      raises. */
  function Markable(cs: seq<Candle>, last: int, n: nat): (r: nat)
    requires 1 <= n <= |cs|
    ensures 1 <= r <= n
    ensures forall j | 1 <= j < r :: CanMark(cs, last, j)
    ensures r < n ==> !CanMark(cs, last, r)
  {
    if n == 1 then 1 else
    var r := Markable(cs, last, n - 1);
    if r == n - 1 && CanMark(cs, last, n - 1) then n else r
  }

  ghost function LastOpen(rows: map<int, Mark>): (k: int)
    requires rows != map[]
    ensures k in rows && forall k' | k' in rows :: k' <= k
  {
    NewestExists(rows);
    var k :| k in rows && forall k' | k' in rows :: k' <= k;
    k
  }

  lemma NewestExists(rows: map<int, Mark>)
    requires rows != map[]
    ensures exists k | k in rows :: forall k' | k' in rows :: k' <= k
  {
    assert rows.Keys != {};
    var k := NewestOf(rows.Keys);
  }

  lemma {:induction false} NewestOf(keys: set<int>) returns (k: int)
    requires keys != {}
    ensures k in keys && forall k' | k' in keys :: k' <= k
    decreases |keys|
  {
    var x := SomeElement(keys);
    k := x;
    if keys != {x} {
      var m := NewestOf(keys - {x});
      k := if m > x then m else x;
      assert forall k' | k' in keys :: k' == x || k' in keys - {x};
    }
  }

  /** A tick over these bars raises in the middle: it reaches a new bar without a log return. */
  ghost predicate Breaks(cs: seq<Candle>, rows: map<int, Mark>)
    requires |cs| >= MIN_HISTORY + 1
  {
    rows != map[] && LastOpen(rows) >= cs[MIN_HISTORY].openTime && Markable(cs, LastOpen(rows), |cs|) < |cs|
  }

  /** The table after one undisturbed tick over the fetched bars; each row is committed by
      itself, so a tick that breaks leaves the rows before the bar it breaks at. */
  ghost function TickRows(math: Math, track: Track, cs: seq<Candle>, rows: map<int, Mark>): Marked
    requires |cs| >= MIN_HISTORY + 1
  {
    if rows == map[] then
      var mark := InceptionMark(math, track, cs, |cs| - 1);
      Marked(map[cs[|cs| - 1].openTime := mark], mark.equity, [], true)
    else
      var last := LastOpen(rows);
      var start := Marked(rows, rows[last].equity, [], false);
      if last < cs[MIN_HISTORY].openTime then start
      else MarkBars(math, track, cs, last, Markable(cs, last, |cs|), start)
  }

  class MarkTable {
    var rows: map<int, Mark>
    var alerts: seq<int>

    constructor ()
      ensures rows == map[] && alerts == []
    {
      rows, alerts := map[], [];
    }

    method LastMark() returns (last: Option<(int, real)>)
      ensures last.None? <==> rows == map[]
      ensures last.Some? ==> last.value.0 == LastOpen(rows) && last.value.1 == rows[last.value.0].equity
    {
      if rows == map[] {
        return None;
      }
      assert rows.Keys != {};
      ghost var _ := SomeElement(rows.Keys);
      var key: int :| key in rows.Keys;
      var rest := rows.Keys - {key};
      while rest != {}
        invariant rest <= rows.Keys && key in rows
        invariant forall k | k in rows :: k in rest || k <= key
        decreases |rest|
      {
        ghost var _ := SomeElement(rest);
        var k: int :| k in rest;
        key := if k > key then k else key;
        rest := rest - {k};
      }
      last := Some((key, rows[key].equity));
    }

    method InsertMark(key: int, mark: Mark) returns (inserted: bool)
      modifies this`rows
      ensures rows == InsertIfAbsent(old(rows), key, mark)
      ensures inserted <==> key !in old(rows)
    {
      inserted := key !in rows;
      if inserted {
        rows := rows[key := mark];
      }
    }

    /** A tick that nothing interrupts. Too few bars raise, and so does a new bar without a log
        return, after the rows before it; a table whose newest row predates the retained history
        is left alone. The second result tells whether there is an inception to announce. */
    method Tick(math: Math, track: Track, cs: seq<Candle>) returns (r: Result<bool>, incepted: bool)
      modifies this
      ensures r.Err? <==> |cs| < MIN_HISTORY + 1 || Breaks(cs, old(rows))
      ensures |cs| < MIN_HISTORY + 1 ==> rows == old(rows) && alerts == old(alerts) && !incepted
      ensures |cs| >= MIN_HISTORY + 1 ==>
                var done := TickRows(math, track, cs, old(rows));
                && rows == done.rows && alerts == old(alerts) + done.alerts
                && (r.Ok? ==> r.value == done.wrote)
                && (incepted <==> old(rows) == map[])
    {
      incepted := false;
      if |cs| < MIN_HISTORY + 1 {
        return Err("too few candles fetched"), false;
      }
      hide StartMark, HoldMark, Position, MarkBars, Markable;
      var pos := Rule(track, cs);
      var lm := LastMark();
      if lm.None? {
        var j := |cs| - 1;
        var inserted := InsertMark(cs[j].openTime, StartMark(math, cs[j].close, pos[j]));
        return Ok(inserted), inserted;
      }
      if lm.value.0 < cs[MIN_HISTORY].openTime {
        return Ok(false), false;
      }
      r := MarkFrom(math, track, cs, pos, lm.value.0, lm.value.1);
    }

    /** The loop of Tick: one row per bar newer than the last mark, up to the first bar whose
        logarithm raises. */
    method MarkFrom(math: Math, track: Track, cs: seq<Candle>, pos: seq<int>, last: int, equity0: real)
      returns (r: Result<bool>)
      requires |cs| == |pos| >= 1
      requires forall j | 0 <= j < |cs| :: pos[j] == Position(track, cs, j)
      modifies this
      ensures r.Ok? <==> Markable(cs, last, |cs|) == |cs|
      ensures var start := Marked(old(rows), equity0, [], false);
              var done := MarkBars(math, track, cs, last, Markable(cs, last, |cs|), start);
              rows == done.rows && alerts == old(alerts) + done.alerts && (r.Ok? ==> r.value == done.wrote)
    {
      hide HoldMark, Position, HasLog, Markable;
      var wrote := false;
      var equity := equity0;
      ghost var start := Marked(rows, equity, [], false);
      ghost var done := start;
      for j := 1 to |cs|
        invariant done == MarkBars(math, track, cs, last, j, start)
        invariant done.rows == rows && done.wrote == wrote && done.equity == equity
        invariant alerts == old(alerts) + done.alerts
        invariant forall i | 1 <= i < j :: CanMark(cs, last, i)
      {
        if cs[j].openTime > last && !HasLog(cs[j - 1].close, cs[j].close) {
          assert !CanMark(cs, last, j);
          return Err("math domain error");
        }
        done := MarkBar(math, track, cs, last, j, done);
        if cs[j].openTime <= last {
          continue;
        }
        var mark := HoldMark(math, cs[j - 1].close, cs[j].close, pos[j - 1], pos[j], equity);
        equity := mark.equity;
        var inserted := InsertMark(cs[j].openTime, mark);
        if inserted {
          wrote := true;
          if mark.flipped && track != BuyHold {
            alerts := alerts + [cs[j].openTime];
          }
        }
      }
      r := Ok(wrote);
    }
  }

  // ----- self-healing and reruns

  /** The state of the loop once bar `end` has been accounted for. */
  ghost predicate Healed(math: Math, track: Track, history: seq<Candle>, b: nat, top: nat, end: nat, m: Marked)
    requires b <= top <= end < |history|
  {
    && m.rows == RunTable(math, track, history, b, end)
    && m.equity == RunMark(math, track, history, b, end).equity
    && m.wrote == (end > top)
  }

  lemma {:induction false} MarkBarHeals(math: Math, track: Track, history: seq<Candle>, b: nat, top: nat,
                                        lo: nat, hi: nat, i: nat, m: Marked)
    requires Bars(history) && b <= top < i < hi <= |history|
    requires lo + MIN_HISTORY <= top
    requires Healed(math, track, history, b, top, i - 1, m)
    ensures Healed(math, track, history, b, top, i,
                   MarkBar(math, track, history[lo..hi], history[top].openTime, i - lo, m))
  {
    hide NextMark, InceptionMark;
    MarkShift(math, track, history, lo, hi, i - lo, m.equity);
    RunTableRows(math, track, history, b, i - 1, i);
  }

  lemma {:induction false} MarkBarKeepsPace(math: Math, track: Track, history: seq<Candle>, b: nat, top: nat,
                                            lo: nat, hi: nat, j: nat, m: Marked)
    requires Bars(history) && b <= top < |history|
    requires lo + MIN_HISTORY <= top && lo + MIN_HISTORY < hi <= |history| && 1 <= j < hi - lo
    requires Healed(math, track, history, b, top, PaceOf(top, lo + j - 1), m)
    ensures Healed(math, track, history, b, top, PaceOf(top, lo + j),
                   MarkBar(math, track, history[lo..hi], history[top].openTime, j, m))
  {
    hide Healed, MarkBar;
    if lo + j > top {
      MarkBarHeals(math, track, history, b, top, lo, hi, lo + j, m);
    } else {
      MarkBarSkips(math, track, history, top, lo, hi, j, m);
    }
  }

  /** The newest row once bar i has been visited. */
  function PaceOf(top: nat, i: nat): nat {
    if i > top then i else top
  }

  lemma {:induction false} MarkBarsHeal(math: Math, track: Track, history: seq<Candle>, b: nat, top: nat,
                                        lo: nat, hi: nat, n: nat, start: Marked)
    requires Bars(history) && b <= top < |history|
    requires lo + MIN_HISTORY <= top && lo + MIN_HISTORY < hi <= |history| && 1 <= n <= hi - lo
    requires Healed(math, track, history, b, top, top, start)
    ensures Healed(math, track, history, b, top, PaceOf(top, lo + n - 1),
                   MarkBars(math, track, history[lo..hi], history[top].openTime, n, start))
  {
    hide Healed, MarkBar;
    if n > 1 {
      MarkBarsHeal(math, track, history, b, top, lo, hi, n - 1, start);
      MarkBarKeepsPace(math, track, history, b, top, lo, hi, n - 1,
                       MarkBars(math, track, history[lo..hi], history[top].openTime, n - 1, start));
    }
  }

  lemma MarkBarSkips(math: Math, track: Track, history: seq<Candle>, top: nat, lo: nat, hi: nat, j: nat, m: Marked)
    requires Bars(history) && top < |history| && lo <= hi <= |history|
    requires 1 <= j < hi - lo && lo + j <= top
    ensures MarkBar(math, track, history[lo..hi], history[top].openTime, j, m) == m
  {
  }

  /** The bars the tick gets through have log returns. */
  lemma MarkableIsLogged(history: seq<Candle>, top: nat, lo: nat, hi: nat)
    requires Bars(history) && lo <= top < |history| && lo < hi <= |history|
    ensures Logged(history, top, PaceOf(top, lo + Markable(history[lo..hi], history[top].openTime, hi - lo) - 1))
  {
    hide Markable, HasLog;
    var cs, last := history[lo..hi], history[top].openTime;
    var n := Markable(cs, last, hi - lo);
    forall i | top < i < lo + n ensures HasLog(history[i - 1].close, history[i].close) {
      assert CanMark(cs, last, i - lo);
      assert cs[i - lo] == history[i] && cs[i - lo - 1] == history[i - 1];
    }
  }

  /** An undisturbed tick over any window that reaches 60 bars behind the newest row brings the
      table exactly to where the uninterrupted run would be at the last bar it gets through, which
      is the window's last unless some new bar has no log return; it reports whether it wrote. */
  lemma {:induction false} TickHeals(math: Math, track: Track, history: seq<Candle>, b: nat, top: nat, lo: nat, hi: nat)
    requires Bars(history) && b <= top < |history|
    requires lo + MIN_HISTORY <= top && lo + MIN_HISTORY < hi <= |history|
    ensures var end := PaceOf(top, lo + Markable(history[lo..hi], history[top].openTime, hi - lo) - 1);
            var done := TickRows(math, track, history[lo..hi], RunTable(math, track, history, b, top));
            && done.rows == RunTable(math, track, history, b, end)
            && done.wrote == (end > top)
            && Logged(history, top, end)
            && ((forall i | top < i < hi :: HasLog(history[i - 1].close, history[i].close)) ==>
                  end == if hi - 1 > top then hi - 1 else top)
  {
    hide MarkBars, RunTable, RunMark, HasLog;
    RunTableKeys(math, track, history, b, top);
    RunTableRows(math, track, history, b, top, top);
    var t := RunTable(math, track, history, b, top);
    var cs, last := history[lo..hi], history[top].openTime;
    var n := Markable(cs, last, hi - lo);
    var start := Marked(t, RunMark(math, track, history, b, top).equity, [], false);
    MarkBarsHeal(math, track, history, b, top, lo, hi, n, start);
    MarkableIsLogged(history, top, lo, hi);
    if n < hi - lo {
      assert !CanMark(cs, last, n) && lo + n > top;
    }
  }

  /** Beyond the retained history the tick refuses: it changes nothing. */
  lemma {:induction false} TickRefusesGap(math: Math, track: Track, history: seq<Candle>, b: nat, top: nat, lo: nat,
                                          hi: nat)
    requires Bars(history) && b <= top < |history|
    requires top < lo + MIN_HISTORY < hi <= |history|
    ensures var done := TickRows(math, track, history[lo..hi], RunTable(math, track, history, b, top));
            done.rows == RunTable(math, track, history, b, top) && !done.wrote
  {
    RunTableKeys(math, track, history, b, top);
  }

  /** A fetch of the last n bars, the newest being bar `newest`, heals a downtime of exactly up to
      n - 61 missed bars: it then brings the table to the newest bar, and beyond that it leaves the
      table as it was. */
  lemma {:induction false} DowntimeHealed(math: Math, track: Track, history: seq<Candle>, b: nat, top: nat,
                                          newest: nat, n: nat)
    requires Bars(history) && b <= top < newest < |history| && Logged(history, top, newest)
    requires MIN_HISTORY < n <= newest + 1
    ensures var rows := RunTable(math, track, history, b, top);
            var fetched := history[newest + 1 - n..newest + 1];
            var done := TickRows(math, track, fetched, rows);
            && (done.rows == RunTable(math, track, history, b, newest) <==> newest - top <= n - MIN_HISTORY - 1)
            && (newest - top > n - MIN_HISTORY - 1 ==> done.rows == rows && !done.wrote)
  {
    hide TickRows, RunTable, HasLog;
    var lo := newest + 1 - n;
    if lo + MIN_HISTORY <= top {
      TickHeals(math, track, history, b, top, lo, newest + 1);
    } else {
      TickRefusesGap(math, track, history, b, top, lo, newest + 1);
      RunTableRows(math, track, history, b, top, newest);
      RunTableRows(math, track, history, b, newest, newest);
    }
  }

  /** The bars one tick asks for. */
  const LOOKBACK_BARS: nat := 300

  /** With 300 daily bars a downtime of 239 missed bars heals, and one of 240 to 270 does not. */
  lemma {:induction false} DowntimeLimit(math: Math, track: Track, history: seq<Candle>, b: nat, top: nat, newest: nat)
    requires Bars(history) && b <= top < newest < |history| && Logged(history, top, newest)
    requires LOOKBACK_BARS <= newest + 1
    ensures var rows := RunTable(math, track, history, b, top);
            var done := TickRows(math, track, history[newest + 1 - LOOKBACK_BARS..newest + 1], rows);
            && (newest - top <= 239 ==> done.rows == RunTable(math, track, history, b, newest))
            && (240 <= newest - top <= 270 ==>
                  done.rows == rows && done.rows != RunTable(math, track, history, b, newest))
  {
    hide TickRows, RunTable, Logged;
    DowntimeHealed(math, track, history, b, top, newest, LOOKBACK_BARS);
  }

  /** The first tick starts the run at the newest bar of its window. */
  lemma {:induction false} FirstTick(math: Math, track: Track, history: seq<Candle>, lo: nat, hi: nat)
    requires lo + MIN_HISTORY < hi <= |history|
    ensures TickRows(math, track, history[lo..hi], map[]).rows == RunTable(math, track, history, hi - 1, hi - 1)
  {
    hide MarkBars, Markable, NextMark, InceptionMark;
    MarkShift(math, track, history, lo, hi, hi - 1 - lo, 0.0);
    assert history[lo..hi][hi - 1 - lo] == history[hi - 1];
  }

  // ----- the report

  /** report_text's rule: the first row stores the position held from inception, later rows the
      position held into their bar. */
  function ReportedPosition(n: nat, newest: Mark): int {
    if n == 1 then newest.position else if newest.flipped then 1 - newest.position else newest.position
  }

  /** The report shows the position the rule actually decided at the newest bar. */
  lemma {:induction false} ReportIsCurrent(math: Math, track: Track, history: seq<Candle>, b: nat, top: nat)
    requires Bars(history) && b <= top < |history|
    ensures var t := RunTable(math, track, history, b, top);
            ReportedPosition(|t|, t[LastOpen(t)]) == Position(track, history, top)
  {
    RunTableKeys(math, track, history, b, top);
    RunTableRows(math, track, history, b, top, top);
  }

  // ----- what equity means

  ghost predicate ExpLn(math: Math) {
    forall x | x > 0.0 :: math.exp(math.ln(x)) == x
  }

  lemma HeldMarkGrows(math: Math, prev: real, close: real, equity: real)
    requires ExpLn(math) && prev > 0.0 && close > 0.0
    ensures HoldMark(math, prev, close, 1, 1, equity).equity == equity * (close / prev)
  {
    var growth := close / prev;
    assert growth > 0.0;
    assert 1 as real * math.ln(growth) - FEE * (0 as real) == math.ln(growth);
  }

  lemma {:induction false} BuyHoldStep(math: Math, history: seq<Candle>, b: nat, i: nat)
    requires b < i < |history| && ExpLn(math)
    requires history[i - 1].close > 0.0 && history[i].close > 0.0
    ensures RunMark(math, BuyHold, history, b, i).equity
            == RunMark(math, BuyHold, history, b, i - 1).equity * (history[i].close / history[i - 1].close)
  {
    hide HoldMark, ExpLn;
    HeldMarkGrows(math, history[i - 1].close, history[i].close, RunMark(math, BuyHold, history, b, i - 1).equity);
  }

  /** The benchmark's paper equity is the entry stake, net of one fee, scaled by price. */
  lemma {:induction false} BuyHoldTracksPrice(math: Math, history: seq<Candle>, b: nat, i: nat)
    requires b <= i < |history| && ExpLn(math)
    requires forall k | 0 <= k < |history| :: history[k].close > 0.0
    ensures RunMark(math, BuyHold, history, b, i).equity * history[b].close
            == START_EQUITY * math.exp(-FEE) * history[i].close
    decreases i
  {
    hide RunMark, ExpLn;
    if i == b {
      BuyHoldStart(math, history, b);
    } else {
      BuyHoldTracksPrice(math, history, b, i - 1);
      BuyHoldStep(math, history, b, i);
    }
  }

  lemma BuyHoldStart(math: Math, history: seq<Candle>, b: nat)
    requires b < |history|
    ensures RunMark(math, BuyHold, history, b, b).equity == START_EQUITY * math.exp(-FEE)
  {
    assert -FEE * (1 as real) == -FEE;
  }

}
