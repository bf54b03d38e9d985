/** forward_test.py: workers that race for the very first mark. Any number of them find the table
    empty, with any windows, and insert their first rows in any order, some perhaps never. Exactly
    when is the table they leave the table of one uninterrupted run? */
module RacingInceptions {
  import opened Market
  import opened ForwardTest
  import opened MarkingProtocol

  /** The window of one worker. */
  datatype Window = Window(lo: nat, hi: nat)

  /** Each worker can fetch its window and finds enough bars in it. */
  predicate Fetchable(job: Job, ws: seq<Window>) {
    forall i | 0 <= i < |ws| :: ws[i].lo + MIN_HISTORY < ws[i].hi <= |job.history|
  }

  /** Worker i reads window i, one after the other; */
  function Reads(ws: seq<Window>): seq<Step> {
    if ws == [] then [] else
    var n := |ws| - 1;
    Reads(ws[..n]) + [Read(n, ws[n].lo, ws[n].hi)]
  }

  /** then the workers of `order` insert their rows. */
  function Incepts(order: seq<nat>): seq<Step> {
    if order == [] then [] else Incepts(order[..|order| - 1]) + [Incept(order[|order| - 1])]
  }

  predicate Workers(ws: seq<Window>, order: seq<nat>) {
    forall k | 0 <= k < |order| :: order[k] < |ws|
  }

  /** The bars at which these workers insert. */
  function Ends(ws: seq<Window>, order: seq<nat>): (r: seq<int>)
    requires Workers(ws, order)
    ensures |r| == |order| && forall k | 0 <= k < |r| :: r[k] == ws[order[k]].hi - 1
  {
    seq(|order|, k requires 0 <= k < |order| => ws[order[k]].hi - 1)
  }

  predicate BarsOf(job: Job, ends: seq<int>) {
    forall k | 0 <= k < |ends| :: 0 <= ends[k] < |job.history|
  }

  /** The rows left by first rows inserted at these bars, in this order. */
  function RacedRows(job: Job, ends: seq<int>): map<int, Mark>
    requires BarsOf(job, ends)
  {
    if ends == [] then map[] else
    var e := ends[|ends| - 1];
    InsertIfAbsent(RacedRows(job, ends[..|ends| - 1]), job.history[e].openTime,
                   InceptionMark(job.math, job.track, job.history, e))
  }

  // ----- what the race leaves

  lemma {:induction false} AfterAppend(job: Job, a: seq<Step>, b: seq<Step>, s: State)
    ensures After(job, a + b, s) == After(job, b, After(job, a, s))
    decreases |b|
  {
    hide Apply;
    if b == [] {
      assert a + b == a;
    } else {
      assert (a + b)[..|a + b| - 1] == a + b[..|b| - 1];
      AfterAppend(job, a, b[..|b| - 1], s);
    }
  }

  /** All workers wait with an empty table. */
  ghost predicate AllWait(ws: seq<Window>, s: State) {
    && s.rows == map[] && s.alerts == []
    && (forall i: nat :: i in s.workers <==> i < |ws|)
    && forall i: nat | i < |ws| :: s.workers[i] == Incepting(ws[i].lo, ws[i].hi)
  }

  lemma {:induction false} AfterReads(job: Job, ws: seq<Window>)
    requires Fetchable(job, ws)
    ensures AllWait(ws, After(job, Reads(ws), START))
  {
    if ws != [] {
      var n := |ws| - 1;
      hide Apply, AllWait;
      AfterReads(job, ws[..n]);
      assert Reads(ws)[..|Reads(ws)| - 1] == Reads(ws[..n]);
      OneMoreReads(job, ws, After(job, Reads(ws[..n]), START));
    } else {
      hide Apply;
    }
  }

  lemma OneMoreReads(job: Job, ws: seq<Window>, s: State)
    requires Fetchable(job, ws) && ws != [] && AllWait(ws[..|ws| - 1], s)
    ensures var n := |ws| - 1; AllWait(ws, Apply(job, Read(n, ws[n].lo, ws[n].hi), s))
  {
  }

  /** Some of the workers have inserted and left. */
  ghost predicate SomeLeft(job: Job, ws: seq<Window>, order: seq<nat>, s: State)
    requires Workers(ws, order) && BarsOf(job, Ends(ws, order))
  {
    && s.rows == RacedRows(job, Ends(ws, order)) && s.alerts == []
    && (forall i: nat :: i in s.workers <==> i < |ws| && i !in order)
    && forall i: nat | i < |ws| && i !in order :: s.workers[i] == Incepting(ws[i].lo, ws[i].hi)
  }

  lemma {:induction false} RacedHolds(job: Job, ends: seq<int>, e: int)
    requires BarsOf(job, ends) && e in ends
    ensures job.history[e].openTime in RacedRows(job, ends)
  {
    hide InceptionMark;
    if ends[|ends| - 1] != e {
      assert ends == ends[..|ends| - 1] + [ends[|ends| - 1]];
      RacedHolds(job, ends[..|ends| - 1], e);
    }
  }

  lemma {:induction false} OneMoreLeaves(job: Job, ws: seq<Window>, order: seq<nat>, w: nat, s: State)
    requires Fetchable(job, ws) && Workers(ws, order) && w < |ws|
    requires BarsOf(job, Ends(ws, order)) && SomeLeft(job, ws, order, s)
    ensures BarsOf(job, Ends(ws, order + [w])) && SomeLeft(job, ws, order + [w], Apply(job, Incept(w), s))
  {
    hide InceptionMark, InceptStep, RacedRows;
    var all := order + [w];
    assert Ends(ws, all) == Ends(ws, order) + [ws[w].hi - 1];
    LastRaced(job, Ends(ws, order), ws[w].hi - 1);
    if w in order {
      var k :| 0 <= k < |order| && order[k] == w;
      assert Ends(ws, order)[k] == ws[w].hi - 1;
      RacedHolds(job, Ends(ws, order), ws[w].hi - 1);
    } else {
      InceptRow(job, w, s.workers[w], s);
    }
  }

  lemma LastRaced(job: Job, ends: seq<int>, e: int)
    requires BarsOf(job, ends) && 0 <= e < |job.history|
    ensures BarsOf(job, ends + [e])
    ensures RacedRows(job, ends + [e])
            == InsertIfAbsent(RacedRows(job, ends), job.history[e].openTime,
                              InceptionMark(job.math, job.track, job.history, e))
  {
    hide InceptionMark;
    assert (ends + [e])[..|ends|] == ends;
  }

  lemma {:induction false} AfterRace(job: Job, ws: seq<Window>, order: seq<nat>)
    requires Fetchable(job, ws) && Workers(ws, order)
    ensures BarsOf(job, Ends(ws, order))
    ensures SomeLeft(job, ws, order, After(job, Reads(ws) + Incepts(order), START))
  {
    hide Apply, RacedRows;
    AfterAppend(job, Reads(ws), Incepts(order), START);
    if order == [] {
      AfterReads(job, ws);
      NoneRaced(job, Ends(ws, order));
      assert Incepts(order) == [];
    } else {
      var n := |order| - 1;
      AfterRace(job, ws, order[..n]);
      AfterAppend(job, Reads(ws), Incepts(order[..n]), START);
      assert Incepts(order)[..|Incepts(order)| - 1] == Incepts(order[..n]);
      OneMoreLeaves(job, ws, order[..n], order[n], After(job, Reads(ws) + Incepts(order[..n]), START));
      assert order[..n] + [order[n]] == order;
    }
  }

  lemma NoneRaced(job: Job, ends: seq<int>)
    requires ends == []
    ensures BarsOf(job, ends) && RacedRows(job, ends) == map[]
  {
  }

  // ----- is it a run?

  /** The table is that of some uninterrupted run. */
  ghost predicate IsRun(job: Job, rows: map<int, Mark>) {
    exists b: nat, top: nat | b <= top < |job.history| :: IsRunOf(job, rows, b, top)
  }

  /** The run from bar b gets to bar top, and this is its table. */
  ghost predicate IsRunOf(job: Job, rows: map<int, Mark>, b: nat, top: nat)
    requires b <= top < |job.history|
  {
    Logged(job.history, b, top) && rows == RunTable(job.math, job.track, job.history, b, top)
  }

  /** The rule is flat at all these bars, and a run from the first gets to the last. */
  predicate FlatOn(job: Job, b: int, top: int) {
    && 0 <= b <= top < |job.history| && Logged(job.history, b, top)
    && forall i | b <= i <= top :: Position(job.track, job.history, i) == 0
  }

  /** The bars form one gap-free range; a range of several bars is flat throughout. */
  ghost predicate OneRun(job: Job, ends: seq<int>) {
    exists b, top | b <= top :: Range(ends, b, top) && (b == top || FlatOn(job, b, top))
  }

  ghost predicate Range(ends: seq<int>, b: int, top: int) {
    forall i: int :: i in ends <==> b <= i <= top
  }

  lemma {:induction false} RacedRowsAre(job: Job, ends: seq<int>, i: nat)
    requires Bars(job.history) && BarsOf(job, ends) && i < |job.history|
    ensures var rows := RacedRows(job, ends);
            && (job.history[i].openTime in rows <==> i in ends)
            && (i in ends ==> rows[job.history[i].openTime] == InceptionMark(job.math, job.track, job.history, i))
  {
    hide InceptionMark;
    if ends != [] {
      var init, e := ends[..|ends| - 1], ends[|ends| - 1];
      RacedRowsAre(job, init, i);
      assert ends == init + [e];
      assert job.history[e].openTime == job.history[i].openTime ==> e == i;
    }
  }

  lemma {:induction false} RacedKeys(job: Job, ends: seq<int>, key: int) returns (i: nat)
    requires BarsOf(job, ends) && key in RacedRows(job, ends)
    ensures i in ends && i < |job.history| && key == job.history[i].openTime
  {
    hide InceptionMark;
    var init, e := ends[..|ends| - 1], ends[|ends| - 1];
    if key == job.history[e].openTime {
      i := e;
    } else {
      i := RacedKeys(job, init, key);
      assert ends == init + [e];
    }
  }

  lemma {:induction false} RunKeys(job: Job, b: nat, top: nat, key: int) returns (i: nat)
    requires b <= top < |job.history| && key in RunTable(job.math, job.track, job.history, b, top)
    ensures b <= i <= top && key == job.history[i].openTime
    decreases top
  {
    hide RunMark;
    if key == job.history[top].openTime {
      i := top;
    } else {
      i := RunKeys(job, b, top - 1, key);
    }
  }

  /** Two tables over the same bars, with the same rows, are the same. */
  lemma {:induction false} SameTable(job: Job, ends: seq<int>, b: nat, top: nat)
    requires Bars(job.history) && BarsOf(job, ends) && b <= top < |job.history| && Range(ends, b, top)
    requires forall i | b <= i <= top ::
               RunMark(job.math, job.track, job.history, b, i) == InceptionMark(job.math, job.track, job.history, i)
    ensures RacedRows(job, ends) == RunTable(job.math, job.track, job.history, b, top)
  {
    hide RunMark, InceptionMark, RacedRows, RunTable;
    var raced, run := RacedRows(job, ends), RunTable(job.math, job.track, job.history, b, top);
    forall key | key in raced ensures key in run && run[key] == raced[key] {
      var i := RacedKeys(job, ends, key);
      RacedRowsAre(job, ends, i);
      RunTableRows(job.math, job.track, job.history, b, top, i);
    }
    forall key | key in run ensures key in raced {
      var i := RunKeys(job, b, top, key);
      RacedRowsAre(job, ends, i);
    }
  }

  /** A run over several bars writes the rows of inceptions exactly if it is flat throughout. */
  lemma {:induction false} FlatRun(job: Job, b: nat, top: nat)
    requires b < top < |job.history| && job.math.exp(0.0) == 1.0
    requires Logged(job.history, b, top)
    ensures (forall i | b <= i <= top ::
               RunMark(job.math, job.track, job.history, b, i) == InceptionMark(job.math, job.track, job.history, i))
            <==> FlatOn(job, b, top)
  {
    hide RunMark, InceptionMark, Position, HasLog;
    if FlatOn(job, b, top) {
      forall i | b <= i <= top
        ensures RunMark(job.math, job.track, job.history, b, i) == InceptionMark(job.math, job.track, job.history, i)
      {
        FlatRow(job, b, i);
      }
    }
    if forall i | b <= i <= top ::
         RunMark(job.math, job.track, job.history, b, i) == InceptionMark(job.math, job.track, job.history, i)
    {
      forall i | b <= i <= top ensures Position(job.track, job.history, i) == 0 {
        var k := if i == b then b + 1 else i;
        assert RunMark(job.math, job.track, job.history, b, k) == InceptionMark(job.math, job.track, job.history, k);
        HeldRow(job, b, k);
      }
    }
  }

  lemma {:induction false} FlatRow(job: Job, b: nat, i: nat)
    requires b <= i < |job.history| && job.math.exp(0.0) == 1.0 && FlatOn(job, b, i)
    ensures RunMark(job.math, job.track, job.history, b, i) == InceptionMark(job.math, job.track, job.history, i)
    decreases i
  {
    hide Position;
    if i > b {
      FlatRow(job, b, i - 1);
      FlatMark(job, i - 1);
      StartedLater(job, b, i);
    }
  }

  /** From a row that is an inception's the run goes on as if it had started there. */
  lemma StartedLater(job: Job, b: nat, i: nat)
    requires b < i < |job.history|
    requires RunMark(job.math, job.track, job.history, b, i - 1)
             == InceptionMark(job.math, job.track, job.history, i - 1)
    ensures RunMark(job.math, job.track, job.history, b, i) == RunMark(job.math, job.track, job.history, i - 1, i)
  {
    hide InceptionMark, NextMark;
  }

  lemma HeldRow(job: Job, b: nat, i: nat)
    requires b < i < |job.history|
    requires RunMark(job.math, job.track, job.history, b, i) == InceptionMark(job.math, job.track, job.history, i)
    ensures Position(job.track, job.history, i - 1) == 0 && Position(job.track, job.history, i) == 0
  {
    hide Position, LogReturn;
  }

  /** First rows at these bars make the table of a run if and only if the bars form one gap-free
      range and, if there are several, the rule is flat at all of them. */
  lemma {:induction false} RacedIsRunIff(job: Job, ends: seq<int>)
    requires Bars(job.history) && BarsOf(job, ends) && ends != [] && job.math.exp(0.0) == 1.0
    ensures IsRun(job, RacedRows(job, ends)) <==> OneRun(job, ends)
  {
    hide RunMark, InceptionMark, RacedRows, RunTable, FlatOn;
    var rows := RacedRows(job, ends);
    if IsRun(job, rows) {
      var b: nat, top: nat :| b <= top < |job.history| && IsRunOf(job, rows, b, top);
      RunOfRaced(job, ends, b, top);
    }
    if OneRun(job, ends) {
      var b, top :| b <= top && Range(ends, b, top) && (b == top || FlatOn(job, b, top));
      assert b in ends && top in ends;
      if b < top {
        assert Logged(job.history, b, top) by {
          FlatOnIsLogged(job, b, top);
        }
        FlatRun(job, b, top);
      } else {
        FirstRow(job, b);
      }
      SameTable(job, ends, b, top);
      assert IsRunOf(job, rows, b, top);
    }
  }

  lemma FlatOnIsLogged(job: Job, b: int, top: int)
    requires FlatOn(job, b, top)
    ensures 0 <= b <= top < |job.history| && Logged(job.history, b, top)
  {
    hide Logged, Position;
  }

  lemma FirstRow(job: Job, b: nat)
    requires b < |job.history|
    ensures RunMark(job.math, job.track, job.history, b, b) == InceptionMark(job.math, job.track, job.history, b)
  {
  }

  lemma {:induction false} RunOfRaced(job: Job, ends: seq<int>, b: nat, top: nat)
    requires Bars(job.history) && BarsOf(job, ends) && b <= top < |job.history| && job.math.exp(0.0) == 1.0
    requires IsRunOf(job, RacedRows(job, ends), b, top)
    ensures Range(ends, b, top) && (b == top || FlatOn(job, b, top))
  {
    hide RunMark, InceptionMark, RacedRows, RunTable, FlatOn;
    forall i | 0 <= i < |job.history|
      ensures i in ends <==> b <= i <= top
      ensures b <= i <= top ==>
                RunMark(job.math, job.track, job.history, b, i) == InceptionMark(job.math, job.track, job.history, i)
    {
      RacedRowsAre(job, ends, i);
      RunTableRows(job.math, job.track, job.history, b, top, i);
    }
    if b < top {
      FlatRun(job, b, top);
    }
  }

  // ----- the race itself

  lemma {:induction false} RowsOfRace(job: Job, ws: seq<Window>, order: seq<nat>)
    requires Fetchable(job, ws) && Workers(ws, order)
    ensures BarsOf(job, Ends(ws, order))
    ensures After(job, Reads(ws) + Incepts(order), START).rows == RacedRows(job, Ends(ws, order))
  {
    hide After, RacedRows;
    AfterRace(job, ws, order);
  }

  /** Whatever the windows, the insertion order and the crashes, the race leaves the table of an
      uninterrupted run if and only if the bars inserted at form one gap-free range, flat
      throughout if it has several bars. */
  lemma {:induction false} RaceIsRunIff(job: Job, ws: seq<Window>, order: seq<nat>)
    requires Bars(job.history) && Fetchable(job, ws) && Workers(ws, order) && order != []
    requires job.math.exp(0.0) == 1.0
    ensures IsRun(job, After(job, Reads(ws) + Incepts(order), START).rows) <==> OneRun(job, Ends(ws, order))
  {
    hide After, IsRun, OneRun, RacedRows;
    RowsOfRace(job, ws, order);
    RacedIsRunIff(job, Ends(ws, order));
  }

  /** Two workers, in either order: the table is a run's if and only if the windows end at the same
      bar, or at adjacent bars with the rule flat at both. */
  lemma {:induction false} TwoRacers(job: Job, v: Window, w: Window, vFirst: bool)
    requires Bars(job.history) && Fetchable(job, [v, w]) && job.math.exp(0.0) == 1.0
    ensures var order := if vFirst then [0, 1] else [1, 0];
            IsRun(job, After(job, Reads([v, w]) + Incepts(order), START).rows)
            <==> || v.hi == w.hi
                 || (v.hi + 1 == w.hi && FlatPair(job, v.hi - 1))
                 || (w.hi + 1 == v.hi && FlatPair(job, w.hi - 1))
  {
    hide After, IsRun, FlatPair, OneRun;
    var order := if vFirst then [0, 1] else [1, 0];
    RaceIsRunIff(job, [v, w], order);
    TwoBars(job, Ends([v, w], order), v.hi - 1, w.hi - 1);
  }

  lemma {:induction false} TwoBars(job: Job, ends: seq<int>, x: nat, y: nat)
    requires x < |job.history| && y < |job.history| && job.math.exp(0.0) == 1.0
    requires ends == [x, y] || ends == [y, x]
    ensures OneRun(job, ends) <==> x == y || (x + 1 == y && FlatPair(job, x)) || (y + 1 == x && FlatPair(job, y))
  {
    hide Position;
    var b, top := if x < y then x else y, if x < y then y else x;
    assert ends[0] in ends && ends[1] in ends;
    if OneRun(job, ends) {
      var b', top' :| b' <= top' && Range(ends, b', top') && (b' == top' || FlatOn(job, b', top'));
      assert b' in ends && top' in ends;
      if b < top {
        assert b + 1 in ends;
      }
    }
    if top <= b + 1 {
      assert Range(ends, b, top);
    }
  }

  // ----- a race that fails

  /** 63 bars at one price. */
  function SteadyBars(): (cs: seq<Candle>)
    ensures |cs| == 63 && forall i | 0 <= i < 63 :: cs[i].openTime == i
  {
    seq(63, i => Candle(i, i + 1, 100.0, 100.0, 100.0, 100.0, 1.0))
  }

  function SteadyJob(): Job {
    Job(Math(_ => 1.0, _ => 0.0), BuyHold, SteadyBars())
  }

  /** Two workers whose windows end two bars apart, the first having slept for two days between its
      fetch and its insertion: in either order the table has rows for bars 60 and 62 and none for
      bar 61, which no run leaves. */
  lemma {:induction false} RaceLeavesGap(vFirst: bool)
    ensures var job, v, w := SteadyJob(), Window(0, 61), Window(0, 63);
            var rows := After(job, Reads([v, w]) + Incepts(if vFirst then [0, 1] else [1, 0]), START).rows;
            && Fetchable(job, [v, w])
            && 60 in rows && 61 !in rows && 62 in rows
            && !IsRun(job, rows)
  {
    hide After, IsRun, FlatPair, Fetchable;
    var job, v, w := SteadyJob(), Window(0, 61), Window(0, 63);
    assert Fetchable(job, [v, w]) by {
      SteadyFetch();
    }
    TwoRacers(job, v, w, vFirst);
    RacedBar(job, v, w, vFirst, 60);
    RacedBar(job, v, w, vFirst, 61);
    RacedBar(job, v, w, vFirst, 62);
  }

  lemma SteadyFetch()
    ensures Fetchable(SteadyJob(), [Window(0, 61), Window(0, 63)])
  {
  }

  /** Two racers leave the two bars their windows end at. */
  lemma {:induction false} RacedBar(job: Job, v: Window, w: Window, vFirst: bool, i: nat)
    requires Bars(job.history) && Fetchable(job, [v, w]) && i < |job.history|
    ensures var rows := After(job, Reads([v, w]) + Incepts(if vFirst then [0, 1] else [1, 0]), START).rows;
            job.history[i].openTime in rows <==> i == v.hi - 1 || i == w.hi - 1
  {
    hide After, RacedRows, Bars, Fetchable, Reads, Incepts, InceptionMark;
    var order: seq<nat> := if vFirst then [0, 1] else [1, 0];
    var ends := Ends([v, w], order);
    RowsOfRace(job, [v, w], order);
    RacedRowsAre(job, ends, i);
    assert ends == if vFirst then [v.hi - 1, w.hi - 1] else [w.hi - 1, v.hi - 1];
  }

  /** A race that leaves a run's table is over once all have inserted: from there on any steps at
      all keep the table on the run. */
  lemma {:induction false} HarmlessRace(job: Job, ws: seq<Window>, order: seq<nat>)
    requires Bars(job.history) && Fetchable(job, ws) && Workers(ws, order) && order != []
    requires job.math.exp(0.0) == 1.0 && OneRun(job, Ends(ws, order))
    requires forall i: nat | i < |ws| :: i in order
    ensures exists b | 0 <= b < |job.history| :: Invariant(job, b, After(job, Reads(ws) + Incepts(order), START))
  {
    hide After, RacedRows, RunTable, OneRun;
    RaceIsRunIff(job, ws, order);
    AfterRace(job, ws, order);
    var s := After(job, Reads(ws) + Incepts(order), START);
    var b: nat, top: nat :| b <= top < |job.history| && IsRunOf(job, s.rows, b, top);
    assert Started(job, b, b, top, s);
    assert Invariant(job, b, s);
  }
}
