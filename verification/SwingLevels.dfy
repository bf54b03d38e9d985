/** scripts/breakout_continuation.py, confirmed_levels: one pass over the series replaces
    detecting the swings anew on every prefix. */
module SwingLevels {
  import opened Market
  import opened Bias4H
  import opened SwingStability

  /** A swing price and the bar at which its fractal is confirmed. */
  datatype Level = Level(at: nat, price: real)

  function LevelsOf(swings: seq<Swing>, d: SwingDirection): seq<Level> {
    if swings == [] then [] else
    var last := swings[|swings| - 1];
    LevelsOf(swings[..|swings| - 1], d)
    + if last.direction == d then [Level(last.endIndex + FRACTAL_WIDTH, last.end)] else []
  }

  function PricesOf(swings: seq<Swing>, d: SwingDirection): seq<real> {
    if swings == [] then [] else
    var last := swings[|swings| - 1];
    PricesOf(swings[..|swings| - 1], d) + if last.direction == d then [last.end] else []
  }

  /** What detecting swings on bars 0..i afresh gives: the reference for the cursors. */
  function Recomputed(cs: seq<Candle>, i: nat, d: SwingDirection): seq<real>
    requires i < |cs|
  {
    PricesOf(Swings(cs[..i + 1], FRACTAL_WIDTH), d)
  }

  // ----- sorting is a formality

  predicate NotAfter(a: Level, b: Level) {
    a.at < b.at || (a.at == b.at && a.price <= b.price)
  }

  function InsertLevel(l: Level, ls: seq<Level>): seq<Level> {
    if ls == [] || NotAfter(l, ls[0]) then [l] + ls else [ls[0]] + InsertLevel(l, ls[1..])
  }

  /** list.sort() on (bar, price) pairs. */
  function SortLevels(ls: seq<Level>): seq<Level> {
    if ls == [] then [] else InsertLevel(ls[0], SortLevels(ls[1..]))
  }

  /** By bar, and by price at the same bar. */
  ghost predicate InOrder(ls: seq<Level>) {
    forall j, k | 0 <= j < k < |ls| ::
      ls[j].at < ls[k].at || (ls[j].at == ls[k].at && ls[j].price <= ls[k].price)
  }

  lemma {:induction false} InsertAdds(l: Level, ls: seq<Level>)
    ensures multiset(InsertLevel(l, ls)) == multiset(ls) + multiset{l}
  {
    hide NotAfter;
    if ls != [] {
      InsertAdds(l, ls[1..]);
      assert ls == [ls[0]] + ls[1..];
    }
  }

  lemma InFront(l: Level, ls: seq<Level>)
    requires InOrder(ls) && forall k | 0 <= k < |ls| :: NotAfter(l, ls[k])
    ensures InOrder([l] + ls)
  {
    var r := [l] + ls;
    forall j, k | 0 <= j < k < |r| ensures r[j].at < r[k].at || (r[j].at == r[k].at && r[j].price <= r[k].price) {
      assert r[k] == ls[k - 1];
      assert j > 0 ==> r[j] == ls[j - 1];
    }
  }

  lemma {:induction false} InsertKeepsOrder(l: Level, ls: seq<Level>)
    requires InOrder(ls)
    ensures InOrder(InsertLevel(l, ls))
  {
    if ls == [] {
    } else if NotAfter(l, ls[0]) {
      InFront(l, ls);
    } else {
      var rest := InsertLevel(l, ls[1..]);
      InsertKeepsOrder(l, ls[1..]);
      InsertAdds(l, ls[1..]);
      forall k | 0 <= k < |rest| ensures NotAfter(ls[0], rest[k]) {
        assert rest[k] in multiset(rest);
        assert rest[k] == l || rest[k] in ls[1..];
      }
      InFront(ls[0], rest);
    }
  }

  /** The sort puts all levels in order. */
  lemma {:induction false} SortIsInOrder(ls: seq<Level>)
    ensures InOrder(SortLevels(ls)) && multiset(SortLevels(ls)) == multiset(ls)
  {
    if ls != [] {
      SortIsInOrder(ls[1..]);
      InsertKeepsOrder(ls[0], SortLevels(ls[1..]));
      InsertAdds(ls[0], SortLevels(ls[1..]));
      hide InOrder, InsertLevel;
      assert ls == [ls[0]] + ls[1..];
    }
  }

  /** Bars strictly increase, and stay below n. */
  ghost predicate Climbing(ls: seq<Level>, n: nat) {
    && (forall j, k | 0 <= j < k < |ls| :: ls[j].at < ls[k].at)
    && (forall j | 0 <= j < |ls| :: ls[j].at < n)
  }

  lemma {:induction false} SortClimbing(ls: seq<Level>, n: nat)
    requires Climbing(ls, n)
    ensures SortLevels(ls) == ls
  {
    if ls != [] {
      SortClimbing(ls[1..], n);
      assert ls == [ls[0]] + ls[1..];
    }
  }

  lemma {:induction false} LevelsAppend(a: seq<Swing>, b: seq<Swing>, d: SwingDirection)
    ensures LevelsOf(a + b, d) == LevelsOf(a, d) + LevelsOf(b, d)
    decreases |b|
  {
    if b == [] {
      assert a + b == a;
    } else {
      assert (a + b)[..|a + b| - 1] == a + b[..|b| - 1];
      LevelsAppend(a, b[..|b| - 1], d);
    }
  }

  /** A bar ends at most one swing of each direction, even when it is a fractal both ways. */
  lemma {:induction false} BarLevels(ps: seq<Point>, h: seq<Point>, l: seq<Point>, d: SwingDirection, n: nat)
    requires |h| <= 1 && |l| <= 1
    requires h != [] ==> h[0].kind == High && h[0].index == n
    requires l != [] ==> l[0].kind == Low && l[0].index == n
    ensures var t := LevelsOf(LegInto(ps, h) + LegInto(ps + h, l), d);
            |t| <= 1 && (t != [] ==> t[0].at == n + FRACTAL_WIDTH)
  {
    var a, b := LegInto(ps, h), LegInto(ps + h, l);
    LevelsAppend(a, b, d);
    if a != [] {
      assert a[..0] == [];
    }
    if b != [] {
      assert b[..0] == [];
    }
  }

  lemma ClimbStep(a: seq<Level>, b: seq<Level>, n: nat)
    requires Climbing(a, n) && |b| <= 1 && (b != [] ==> b[0].at == n)
    ensures Climbing(a + b, n + 1)
  {
  }

  lemma {:induction false} LevelsClimb(cs: seq<Candle>, n: nat, d: SwingDirection)
    requires n <= |cs|
    ensures Climbing(LevelsOf(Legs(Points(cs, FRACTAL_WIDTH, n)), d), n + FRACTAL_WIDTH)
  {
    hide IsFractalHigh, IsFractalLow, TailAt, Legs, Points, LevelsOf, Climbing;
    if n == 0 {
      NoneYet(cs, d);
    } else {
      var w := FRACTAL_WIDTH;
      LevelsClimb(cs, n - 1, d);
      LegsOfNextBar(cs, w, n - 1);
      LevelsAppend(Legs(Points(cs, w, n - 1)), TailAt(cs, w, n - 1), d);
      TailLevels(cs, n - 1, d);
      ClimbStep(LevelsOf(Legs(Points(cs, w, n - 1)), d), LevelsOf(TailAt(cs, w, n - 1), d), n - 1 + w);
    }
  }

  lemma NoneYet(cs: seq<Candle>, d: SwingDirection)
    ensures Climbing(LevelsOf(Legs(Points(cs, FRACTAL_WIDTH, 0)), d), FRACTAL_WIDTH)
  {
  }

  lemma TailLevels(cs: seq<Candle>, n: nat, d: SwingDirection)
    requires n < |cs|
    ensures var t := LevelsOf(TailAt(cs, FRACTAL_WIDTH, n), d);
            |t| <= 1 && (t != [] ==> t[0].at == n + FRACTAL_WIDTH)
  {
    hide IsFractalHigh, IsFractalLow, LegInto, LevelsOf;
    BarLevels(Points(cs, FRACTAL_WIDTH, n), HighAt(cs, FRACTAL_WIDTH, n), LowAt(cs, FRACTAL_WIDTH, n), d, n);
  }

  method ConfirmedLevels(cs: seq<Candle>) returns (highs: seq<Level>, lows: seq<Level>)
    ensures highs == LevelsOf(Swings(cs, FRACTAL_WIDTH), Up)
    ensures lows == LevelsOf(Swings(cs, FRACTAL_WIDTH), Down)
  {
    hide Swings;
    var swings := DetectSwings(cs, FRACTAL_WIDTH);
    highs, lows := [], [];
    for j := 0 to |swings|
      invariant highs == LevelsOf(swings[..j], Up) && lows == LevelsOf(swings[..j], Down)
    {
      var s := swings[j];
      assert swings[..j + 1][..j] == swings[..j];
      var confirmedAt := s.endIndex + FRACTAL_WIDTH;
      if s.direction == Up {
        highs := highs + [Level(confirmedAt, s.end)];
      } else {
        lows := lows + [Level(confirmedAt, s.end)];
      }
    }
    assert swings[..|swings|] == swings;
    SwingLevelsClimb(cs, Up);
    SwingLevelsClimb(cs, Down);
    SortClimbing(highs, |cs| + FRACTAL_WIDTH);
    SortClimbing(lows, |cs| + FRACTAL_WIDTH);
    highs, lows := SortLevels(highs), SortLevels(lows);
  }

  lemma SwingLevelsClimb(cs: seq<Candle>, d: SwingDirection)
    ensures Climbing(LevelsOf(Swings(cs, FRACTAL_WIDTH), d), |cs| + FRACTAL_WIDTH)
  {
    LevelsClimb(cs, |cs|, d);
  }

  // ----- the cursor

  /** The prices the cursor has collected once every level confirmed by bar i is behind it. */
  function PricesBy(ls: seq<Level>, i: int): seq<real> {
    if ls == [] then [] else
    var last := ls[|ls| - 1];
    PricesBy(ls[..|ls| - 1], i) + if last.at <= i then [last.price] else []
  }

  lemma {:induction false} PricesFilter(swings: seq<Swing>, d: SwingDirection, i: int)
    ensures PricesOf(SwingsBefore(swings, i + 1 - FRACTAL_WIDTH), d) == PricesBy(LevelsOf(swings, d), i)
  {
    if swings != [] {
      var n := |swings| - 1;
      var last := swings[n];
      PricesFilter(swings[..n], d, i);
      var kept := SwingsBefore(swings[..n], i + 1 - FRACTAL_WIDTH);
      assert (kept + [last])[..|kept|] == kept && kept + [] == kept;
      var ls := LevelsOf(swings[..n], d);
      var level := Level(last.endIndex + FRACTAL_WIDTH, last.end);
      assert (ls + [level])[..|ls|] == ls && ls + [] == ls;
    }
  }

  /** The claim of the docstring: filtering the levels of the whole series by their
      confirmation bar gives what detection on bars 0..i alone would give. */
  lemma {:induction false} ConfirmedIsRecomputed(cs: seq<Candle>, i: nat, d: SwingDirection)
    requires i < |cs|
    ensures PricesBy(LevelsOf(Swings(cs, FRACTAL_WIDTH), d), i) == Recomputed(cs, i, d)
  {
    hide Swings;
    NeverRepaints(cs, i + 1, FRACTAL_WIDTH);
    PricesFilter(Swings(cs, FRACTAL_WIDTH), d, i);
  }

  function PricesIn(ls: seq<Level>): seq<real> {
    if ls == [] then [] else PricesIn(ls[..|ls| - 1]) + [ls[|ls| - 1].price]
  }

  /** A cursor at the first unconfirmed level has passed exactly the confirmed ones. */
  lemma {:induction false} CursorSplit(ls: seq<Level>, cur: nat, n: nat, i: int)
    requires cur <= |ls| && Climbing(ls, n)
    requires cur > 0 ==> ls[cur - 1].at <= i
    requires cur < |ls| ==> ls[cur].at > i
    ensures PricesBy(ls, i) == PricesIn(ls[..cur])
    decreases |ls|
  {
    if ls != [] {
      var init := ls[..|ls| - 1];
      if cur == |ls| {
        assert ls[..cur] == ls;
        CursorSplit(init, cur - 1, n, i);
        assert init[..cur - 1] == init;
      } else {
        assert init[..cur] == ls[..cur];
        CursorSplit(init, cur, n, i);
      }
    }
  }

  /** The while loop: passes every level confirmed by bar i. */
  method AdvanceCursor(ls: seq<Level>, start: nat, seen: seq<real>, i: nat, ghost n: nat)
    returns (cur: nat, prices: seq<real>)
    requires start <= |ls| && seen == PricesIn(ls[..start]) && Climbing(ls, n)
    requires start > 0 ==> ls[start - 1].at <= i
    ensures start <= cur <= |ls| && prices == PricesIn(ls[..cur]) && prices == PricesBy(ls, i)
    ensures cur > 0 ==> ls[cur - 1].at <= i
  {
    cur, prices := start, seen;
    while cur < |ls| && ls[cur].at <= i
      invariant start <= cur <= |ls| && prices == PricesIn(ls[..cur])
      invariant cur > 0 ==> ls[cur - 1].at <= i
    {
      prices := prices + [ls[cur].price];
      cur := cur + 1;
      assert ls[..cur][..cur - 1] == ls[..cur - 1];
    }
    CursorSplit(ls, cur, n, i);
  }
}
