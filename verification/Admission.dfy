/** scripts/trend_let_winners_run.py: admission of simulated entries under a concurrency cap, and
    the sweep over the exposure of what was admitted. */
module Admission {
  import opened Market
  import opened Reals

  datatype Position = Position(entryIndex: int, exitIndex: int, entry: real, risk: real, isLong: bool)

  // ----- counting

  /** Admitted positions not yet closed before the bar: what the gate looks at. */
  function Held(ps: seq<Position>, bar: int): nat {
    if ps == [] then 0 else Held(ps[..|ps| - 1], bar) + if ps[|ps| - 1].exitIndex >= bar then 1 else 0
  }

  /** Positions whose life, entry and exit bars included, contains the bar. */
  function Alive(ps: seq<Position>, bar: int): nat {
    if ps == [] then 0 else
    Alive(ps[..|ps| - 1], bar) + if ps[|ps| - 1].entryIndex <= bar <= ps[|ps| - 1].exitIndex then 1 else 0
  }

  predicate Exposed(p: Position, bar: int) {
    p.entryIndex < bar <= p.exitIndex
  }

  /** Positions exposed to the bar's prices: entered before it. */
  function OpenCount(ps: seq<Position>, bar: int): nat {
    if ps == [] then 0 else OpenCount(ps[..|ps| - 1], bar) + if Exposed(ps[|ps| - 1], bar) then 1 else 0
  }

  // ----- the gate

  predicate Admits(admitted: seq<Position>, e: Position, concurrent: bool, cap: int) {
    if concurrent then Held(admitted, e.entryIndex) < cap else Held(admitted, e.entryIndex) == 0
  }

  /** The book after the first n entries. */
  function Book(entries: seq<Position>, concurrent: bool, cap: int, n: nat): seq<Position>
    requires n <= |entries|
  {
    if n == 0 then [] else
    var before := Book(entries, concurrent, cap, n - 1);
    if Admits(before, entries[n - 1], concurrent, cap) then before + [entries[n - 1]] else before
  }

  function Refused(entries: seq<Position>, concurrent: bool, cap: int, n: nat): nat
    requires n <= |entries|
  {
    if n == 0 then 0 else
    Refused(entries, concurrent, cap, n - 1)
    + if Admits(Book(entries, concurrent, cap, n - 1), entries[n - 1], concurrent, cap) then 0 else 1
  }

  /** How many of these positions came in while an earlier one was still held. */
  function Joined(ps: seq<Position>): nat {
    if ps == [] then 0 else
    var before, e := ps[..|ps| - 1], ps[|ps| - 1];
    Joined(before) + if Held(before, e.entryIndex) > 0 then 1 else 0
  }

  lemma NoneJoined()
    ensures Joined([]) == 0
  {
  }

  lemma OneMoreJoined(ps: seq<Position>, e: Position)
    ensures Joined(ps + [e]) == Joined(ps) + if Held(ps, e.entryIndex) > 0 then 1 else 0
  {
    hide Held;
    assert (ps + [e])[..|ps|] == ps;
  }

  method Gate(entries: seq<Position>, concurrent: bool, cap: int)
    returns (admitted: seq<Position>, skippedCap: nat, skippedSingle: nat, util: nat)
    ensures admitted == Book(entries, concurrent, cap, |entries|)
    ensures (if concurrent then skippedCap else skippedSingle) == Refused(entries, concurrent, cap, |entries|)
    ensures (if concurrent then skippedSingle else skippedCap) == 0
    ensures |admitted| + skippedCap + skippedSingle == |entries|
    ensures util == if concurrent then Joined(admitted) else 0
  {
    hide Held, Joined;
    NoneJoined();
    admitted, skippedCap, skippedSingle, util := [], 0, 0, 0;
    for i := 0 to |entries|
      invariant admitted == Book(entries, concurrent, cap, i)
      invariant (if concurrent then skippedCap else skippedSingle) == Refused(entries, concurrent, cap, i)
      invariant (if concurrent then skippedSingle else skippedCap) == 0
      invariant |admitted| + skippedCap + skippedSingle == i
      invariant util == if concurrent then Joined(admitted) else 0
    {
      var e := entries[i];
      var openNow := Held(admitted, e.entryIndex);
      OneMoreJoined(admitted, e);
      if concurrent {
        if openNow < cap {
          if openNow > 0 {
            util := util + 1;
          }
          admitted := admitted + [e];
        } else {
          skippedCap := skippedCap + 1;
        }
      } else {
        if openNow == 0 {
          admitted := admitted + [e];
        } else {
          skippedSingle := skippedSingle + 1;
        }
      }
    }
  }

  // ----- the cap

  lemma {:induction false} AliveAreHeld(ps: seq<Position>, bar: int, earlier: int)
    requires earlier <= bar
    ensures OpenCount(ps, bar) <= Alive(ps, bar) <= Held(ps, earlier)
  {
    if ps != [] {
      AliveAreHeld(ps[..|ps| - 1], bar, earlier);
    }
  }

  /** No bar ever sees more than cap positions alive, in whatever order entries come. */
  lemma {:induction false} CapRespected(entries: seq<Position>, cap: int, n: nat, bar: int)
    requires n <= |entries| && cap >= 0
    ensures OpenCount(Book(entries, true, cap, n), bar) <= Alive(Book(entries, true, cap, n), bar) <= cap
  {
    if n > 0 {
      CapRespected(entries, cap, n - 1, bar);
      var before, e := Book(entries, true, cap, n - 1), entries[n - 1];
      assert (before + [e])[..|before|] == before;
      if e.entryIndex <= bar {
        AliveAreHeld(before, bar, e.entryIndex);
      }
    }
    AliveAreHeld(Book(entries, true, cap, n), bar, bar);
  }

  ghost predicate AllExitedBefore(ps: seq<Position>, bar: int) {
    forall k | 0 <= k < |ps| :: ps[k].exitIndex < bar
  }

  lemma {:induction false} NoneHeld(ps: seq<Position>, bar: int)
    ensures Held(ps, bar) == 0 <==> AllExitedBefore(ps, bar)
  {
    if ps != [] {
      NoneHeld(ps[..|ps| - 1], bar);
    }
  }

  /** Each position has exited strictly before the next ones enter. */
  ghost predicate OneAtATime(ps: seq<Position>) {
    forall j, k | 0 <= j < k < |ps| :: ps[j].exitIndex < ps[k].entryIndex
  }

  lemma OneMore(ps: seq<Position>, e: Position)
    requires OneAtATime(ps) && AllExitedBefore(ps, e.entryIndex)
    ensures OneAtATime(ps + [e])
  {
  }

  lemma {:induction false} SingleModeDisjoint(entries: seq<Position>, cap: int, n: nat)
    requires n <= |entries|
    ensures OneAtATime(Book(entries, false, cap, n))
  {
    hide OneAtATime, AllExitedBefore;
    if n == 0 {
      NoneAtAll();
    } else {
      SingleModeDisjoint(entries, cap, n - 1);
      var before, e := Book(entries, false, cap, n - 1), entries[n - 1];
      if Held(before, e.entryIndex) == 0 {
        NoneHeld(before, e.entryIndex);
        OneMore(before, e);
      }
    }
  }

  lemma NoneAtAll()
    ensures OneAtATime([])
  {
  }

  // ----- what was skipped

  ghost predicate SortedByEntry(entries: seq<Position>) {
    forall i, j | 0 <= i < j < |entries| :: entries[i].entryIndex <= entries[j].entryIndex
  }

  ghost predicate EnteredBy(ps: seq<Position>, bar: int) {
    forall k | 0 <= k < |ps| :: ps[k].entryIndex <= bar
  }

  lemma {:induction false} BookEnteredBy(entries: seq<Position>, concurrent: bool, cap: int, n: nat, bar: int)
    requires n <= |entries| && forall i | 0 <= i < n :: entries[i].entryIndex <= bar
    ensures EnteredBy(Book(entries, concurrent, cap, n), bar)
  {
    if n > 0 {
      BookEnteredBy(entries, concurrent, cap, n - 1, bar);
    }
  }

  lemma {:induction false} HeldAreAlive(ps: seq<Position>, bar: int)
    requires EnteredBy(ps, bar)
    ensures Held(ps, bar) == Alive(ps, bar)
  {
    if ps != [] {
      HeldAreAlive(ps[..|ps| - 1], bar);
    }
  }

  lemma {:induction false} BookGrows(entries: seq<Position>, concurrent: bool, cap: int, m: nat, n: nat, bar: int)
    requires m <= n <= |entries|
    ensures Alive(Book(entries, concurrent, cap, m), bar) <= Alive(Book(entries, concurrent, cap, n), bar)
    decreases n
  {
    if m < n {
      BookGrows(entries, concurrent, cap, m, n - 1, bar);
      var before := Book(entries, concurrent, cap, n - 1);
      assert (before + [entries[n - 1]])[..|before|] == before;
    }
  }

  /** For entries in entry order, every skipped one met a full book: exactly cap admitted
      positions are alive on its entry bar. */
  lemma SkippedMetFullBook(entries: seq<Position>, cap: int, i: nat)
    requires SortedByEntry(entries) && i < |entries| && cap >= 0
    requires !Admits(Book(entries, true, cap, i), entries[i], true, cap)
    ensures Alive(Book(entries, true, cap, |entries|), entries[i].entryIndex) == cap
  {
    var bar := entries[i].entryIndex;
    BookEnteredBy(entries, true, cap, i, bar);
    HeldAreAlive(Book(entries, true, cap, i), bar);
    BookGrows(entries, true, cap, i, |entries|, bar);
    CapRespected(entries, cap, |entries|, bar);
  }

  /** And in single mode it met an open position. */
  lemma SkippedMetOpenPosition(entries: seq<Position>, cap: int, i: nat)
    requires SortedByEntry(entries) && i < |entries|
    requires !Admits(Book(entries, false, cap, i), entries[i], false, cap)
    ensures Alive(Book(entries, false, cap, |entries|), entries[i].entryIndex) >= 1
  {
    var bar := entries[i].entryIndex;
    BookEnteredBy(entries, false, cap, i, bar);
    HeldAreAlive(Book(entries, false, cap, i), bar);
    BookGrows(entries, false, cap, i, |entries|, bar);
  }

  // ----- exposure

  datatype Exposure = Exposure(maxConcurrent: nat, worstFrac: real, worstR: real)

  function AdverseMove(p: Position, c: Candle): real {
    if p.isLong then c.low - p.entry else p.entry - c.high
  }

  function SumFrac(ps: seq<Position>, bar: int, c: Candle): real {
    if ps == [] then 0.0 else
    var p := ps[|ps| - 1];
    SumFrac(ps[..|ps| - 1], bar, c) + if Exposed(p, bar) then Ratio(AdverseMove(p, c), p.entry) else 0.0
  }

  function SumR(ps: seq<Position>, bar: int, c: Candle): real {
    if ps == [] then 0.0 else
    var p := ps[|ps| - 1];
    SumR(ps[..|ps| - 1], bar, c) + if Exposed(p, bar) then Ratio(AdverseMove(p, c), p.risk) else 0.0
  }

  function FirstEntry(ps: seq<Position>): int
    requires ps != []
  {
    if |ps| == 1 then ps[0].entryIndex else
    var m, x := FirstEntry(ps[..|ps| - 1]), ps[|ps| - 1].entryIndex;
    if x < m then x else m
  }

  function LastExit(ps: seq<Position>): int
    requires ps != []
  {
    if |ps| == 1 then ps[0].exitIndex else
    var m, x := LastExit(ps[..|ps| - 1]), ps[|ps| - 1].exitIndex;
    if x > m then x else m
  }

  lemma {:induction false} NothingOutside(ps: seq<Position>, bar: int, c: Candle)
    requires ps == [] || bar <= FirstEntry(ps) || LastExit(ps) < bar
    ensures OpenCount(ps, bar) == 0 && SumFrac(ps, bar, c) == 0.0 && SumR(ps, bar, c) == 0.0
  {
    hide AdverseMove, Ratio;
    if ps != [] {
      NothingOutside(ps[..|ps| - 1], bar, c);
    }
  }

  lemma {:induction false} NoneOpenNoSum(ps: seq<Position>, bar: int, c: Candle)
    requires OpenCount(ps, bar) == 0
    ensures SumFrac(ps, bar, c) == 0.0 && SumR(ps, bar, c) == 0.0
  {
    hide AdverseMove, Ratio;
    if ps != [] {
      NoneOpenNoSum(ps[..|ps| - 1], bar, c);
    }
  }

  /** The exposure bounds bars lo < t < hi and is attained, or zero. */
  ghost predicate Covers(x: Exposure, ps: seq<Position>, cs: seq<Candle>, lo: int, hi: int)
    requires -1 <= lo && hi <= |cs|
  {
    && x.worstFrac <= 0.0 && x.worstR <= 0.0
    && (forall t | lo < t < hi ::
          OpenCount(ps, t) <= x.maxConcurrent && x.worstFrac <= SumFrac(ps, t, cs[t]) && x.worstR <= SumR(ps, t, cs[t]))
    && (x.maxConcurrent == 0 || exists t | lo < t < hi :: OpenCount(ps, t) == x.maxConcurrent)
    && (x.worstFrac == 0.0 || exists t | lo < t < hi :: SumFrac(ps, t, cs[t]) == x.worstFrac)
    && (x.worstR == 0.0 || exists t | lo < t < hi :: SumR(ps, t, cs[t]) == x.worstR)
  }

  lemma CoversMore(x: Exposure, ps: seq<Position>, cs: seq<Candle>, lo: int, t: int)
    requires -1 <= lo < t < |cs| && Covers(x, ps, cs, lo, t)
    ensures var y := Exposure(if OpenCount(ps, t) > x.maxConcurrent then OpenCount(ps, t) else x.maxConcurrent,
                              Min(x.worstFrac, SumFrac(ps, t, cs[t])), Min(x.worstR, SumR(ps, t, cs[t])));
            Covers(y, ps, cs, lo, t + 1)
  {
    hide OpenCount, SumFrac, SumR;
  }

  lemma CoversSame(x: Exposure, ps: seq<Position>, cs: seq<Candle>, lo: int, t: int)
    requires -1 <= lo < t < |cs| && Covers(x, ps, cs, lo, t)
    requires OpenCount(ps, t) == 0 && SumFrac(ps, t, cs[t]) == 0.0 && SumR(ps, t, cs[t]) == 0.0
    ensures Covers(x, ps, cs, lo, t + 1)
  {
  }

  /** An exposed position without entry price or risk: its adverse move cannot be divided by it. */
  predicate ZeroAt(ps: seq<Position>, bar: int) {
    exists k | 0 <= k < |ps| :: Exposed(ps[k], bar) && (ps[k].entry == 0.0 || ps[k].risk == 0.0)
  }

  /** Some position that lives beyond its entry bar has no entry price or no risk. */
  predicate DividesByZero(ps: seq<Position>) {
    exists k | 0 <= k < |ps| :: ps[k].entryIndex < ps[k].exitIndex && (ps[k].entry == 0.0 || ps[k].risk == 0.0)
  }

  /** The sweep's figures are the extremes over every bar of the series; it raises exactly on a
      division by zero. */
  method CombinedExposure(ps: seq<Position>, cs: seq<Candle>) returns (r: Result<Exposure>)
    requires forall k | 0 <= k < |ps| :: 0 <= ps[k].entryIndex && ps[k].exitIndex < |cs|
    ensures r.Err? <==> DividesByZero(ps)
    ensures r.Ok? ==> Covers(r.value, ps, cs, -1, |cs|)
  {
    hide OpenCount, SumFrac, SumR, Covers, ZeroAt, DividesByZero;
    var x := Exposure(0, 0.0, 0.0);
    if ps == [] {
      NoPositions(x, cs);
      return Ok(x);
    }
    RangeOk(ps, cs);
    var lo, hi := FirstEntry(ps), LastExit(ps);
    CoversNothing(x, ps, cs, lo);
    var t := lo + 1;
    while t < hi + 1
      invariant lo < t && (t <= hi + 1 || t == lo + 1)
      invariant t <= |cs| || (t == lo + 1 && hi < t)
      invariant t <= |cs| ==> Covers(x, ps, cs, lo, t)
      invariant t == lo + 1 ==> x == Exposure(0, 0.0, 0.0)
      invariant forall b | lo < b < t :: !ZeroAt(ps, b)
    {
      var count := OpenCount(ps, t);
      if count == 0 {
        NoneOpenNoSum(ps, t, cs[t]);
        CoversSame(x, ps, cs, lo, t);
        NoneOpenNoZero(ps, t);
      } else {
        if ZeroAt(ps, t) {
          ZeroSomewhere(ps, t);
          return Err("division by zero");
        }
        CoversMore(x, ps, cs, lo, t);
        x := Exposure(if count > x.maxConcurrent then count else x.maxConcurrent,
                      Min(x.worstFrac, SumFrac(ps, t, cs[t])), Min(x.worstR, SumR(ps, t, cs[t])));
      }
      t := t + 1;
    }
    WholeSeries(x, ps, cs, lo, t);
    NoZeroAnywhere(ps, lo, t);
    r := Ok(x);
  }

  lemma NoneOpenNoZero(ps: seq<Position>, bar: int)
    requires OpenCount(ps, bar) == 0
    ensures !ZeroAt(ps, bar)
  {
    forall k | 0 <= k < |ps| ensures !Exposed(ps[k], bar) {
      NotExposed(ps, bar, k);
    }
  }

  lemma {:induction false} NotExposed(ps: seq<Position>, bar: int, k: nat)
    requires OpenCount(ps, bar) == 0 && k < |ps|
    ensures !Exposed(ps[k], bar)
    decreases |ps|
  {
    if k < |ps| - 1 {
      NotExposed(ps[..|ps| - 1], bar, k);
    }
  }

  lemma ZeroSomewhere(ps: seq<Position>, bar: int)
    requires ZeroAt(ps, bar)
    ensures DividesByZero(ps)
  {
  }

  /** A position that lives beyond its entry bar is exposed on its exit bar. */
  lemma NoZeroAnywhere(ps: seq<Position>, lo: int, t: int)
    requires ps != [] && lo == FirstEntry(ps) && LastExit(ps) < t
    requires forall b | lo < b < t :: !ZeroAt(ps, b)
    ensures !DividesByZero(ps)
  {
    forall k | 0 <= k < |ps| && ps[k].entryIndex < ps[k].exitIndex
      ensures ps[k].entry != 0.0 && ps[k].risk != 0.0
    {
      hide ZeroAt;
      WithinRange(ps, k);
      assert !ZeroAt(ps, ps[k].exitIndex);
      NonZeroAt(ps, k);
    }
  }

  lemma NonZeroAt(ps: seq<Position>, k: nat)
    requires k < |ps| && ps[k].entryIndex < ps[k].exitIndex && !ZeroAt(ps, ps[k].exitIndex)
    ensures ps[k].entry != 0.0 && ps[k].risk != 0.0
  {
  }

  lemma {:induction false} WithinRange(ps: seq<Position>, k: nat)
    requires k < |ps|
    ensures FirstEntry(ps) <= ps[k].entryIndex && ps[k].exitIndex <= LastExit(ps)
    decreases |ps|
  {
    if k < |ps| - 1 {
      WithinRange(ps[..|ps| - 1], k);
    }
  }

  lemma NoPositions(x: Exposure, cs: seq<Candle>)
    requires x == Exposure(0, 0.0, 0.0)
    ensures Covers(x, [], cs, -1, |cs|) && !DividesByZero([])
  {
  }

  lemma CoversNothing(x: Exposure, ps: seq<Position>, cs: seq<Candle>, lo: int)
    requires x == Exposure(0, 0.0, 0.0) && -1 <= lo
    ensures lo + 1 <= |cs| ==> Covers(x, ps, cs, lo, lo + 1)
  {
  }

  lemma {:induction false} RangeOk(ps: seq<Position>, cs: seq<Candle>)
    requires ps != [] && forall k | 0 <= k < |ps| :: 0 <= ps[k].entryIndex && ps[k].exitIndex < |cs|
    ensures 0 <= FirstEntry(ps) && LastExit(ps) < |cs|
  {
    if |ps| > 1 {
      RangeOk(ps[..|ps| - 1], cs);
    }
  }

  lemma WholeSeries(x: Exposure, ps: seq<Position>, cs: seq<Candle>, lo: int, t: int)
    requires ps != [] && lo == FirstEntry(ps) >= 0 && LastExit(ps) < |cs| && lo < t && LastExit(ps) < t
    requires t <= |cs| ==> Covers(x, ps, cs, lo, t)
    requires t > |cs| ==> x == Exposure(0, 0.0, 0.0) && t == lo + 1
    ensures Covers(x, ps, cs, -1, |cs|)
  {
    hide OpenCount, SumFrac, SumR, FirstEntry, LastExit;
    forall b | -1 < b < |cs| && (b <= lo || t <= b)
      ensures OpenCount(ps, b) == 0 && SumFrac(ps, b, cs[b]) == 0.0 && SumR(ps, b, cs[b]) == 0.0
    {
      NothingOutside(ps, b, cs[b]);
    }
  }

  /** The reported maximum respects the cap. */
  lemma ExposureRespectsCap(entries: seq<Position>, cap: int, cs: seq<Candle>, x: Exposure)
    requires cap >= 0 && Covers(x, Book(entries, true, cap, |entries|), cs, -1, |cs|)
    ensures x.maxConcurrent <= cap
  {
    var book := Book(entries, true, cap, |entries|);
    if x.maxConcurrent != 0 {
      var t :| -1 < t < |cs| && OpenCount(book, t) == x.maxConcurrent;
      CapRespected(entries, cap, |entries|, t);
    }
  }
}
