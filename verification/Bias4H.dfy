/** strategy/bias_4h.py: fractal swings, Fibonacci levels, S/R levels and the structural bias. */
module Bias4H {
  import opened Market

  datatype Kind = High | Low

  datatype Point = Point(index: nat, price: real, kind: Kind)

  datatype SwingDirection = Up | Down

  datatype Swing = Swing(start: real, end: real, direction: SwingDirection, endIndex: nat)

  datatype LevelKind = Support | Resistance

  datatype SRLevel = SRLevel(price: real, kind: LevelKind)

  /** The dictionary of retracements and extensions; empty while no swing is confirmed. */
  datatype FibLevels =
    | NoLevels
    | Levels(r236: real, r382: real, r500: real, r618: real, r786: real, x1272: real, x1618: real)

  datatype BiasResult = BiasResult(bias: Bias, swing: Option<Swing>, fib: FibLevels, sr: seq<SRLevel>)

  const FRACTAL_WIDTH: nat := 2
  const SR_LOOKBACK: nat := 20

  // ----- fractals and swing points

  predicate IsFractalHigh(cs: seq<Candle>, i: nat, width: nat) {
    width <= i && i + width < |cs|
    && cs[i].high == HighestHigh(cs, i - width, i + width + 1)
  }

  predicate IsFractalLow(cs: seq<Candle>, i: nat, width: nat) {
    width <= i && i + width < |cs|
    && cs[i].low == LowestLow(cs, i - width, i + width + 1)
  }

  function HighAt(cs: seq<Candle>, width: nat, i: nat): (r: seq<Point>)
    requires i < |cs|
    ensures |r| <= 1 && forall p | p in r :: p.index == i
  {
    if IsFractalHigh(cs, i, width) then [Point(i, cs[i].high, High)] else []
  }

  function LowAt(cs: seq<Candle>, width: nat, i: nat): (r: seq<Point>)
    requires i < |cs|
    ensures |r| <= 1 && forall p | p in r :: p.index == i
  {
    if IsFractalLow(cs, i, width) then [Point(i, cs[i].low, Low)] else []
  }

  function HighPoints(cs: seq<Candle>, width: nat, n: nat): seq<Point>
    requires n <= |cs|
  {
    if n == 0 then [] else
    HighPoints(cs, width, n - 1) + HighAt(cs, width, n - 1)
  }

  function LowPoints(cs: seq<Candle>, width: nat, n: nat): seq<Point>
    requires n <= |cs|
  {
    if n == 0 then [] else
    LowPoints(cs, width, n - 1) + LowAt(cs, width, n - 1)
  }

  /** Inserts before the first element that is not strictly earlier. */
  function InsertByIndex(p: Point, ps: seq<Point>): seq<Point> {
    if ps == [] || p.index <= ps[0].index then [p] + ps
    else [ps[0]] + InsertByIndex(p, ps[1..])
  }

  /** A stable sort by bar index: equal indices keep their original order. */
  function SortByIndex(ps: seq<Point>): seq<Point> {
    if ps == [] then [] else InsertByIndex(ps[0], SortByIndex(ps[1..]))
  }

  /** The points of the first n bars in bar order: the reference the sort is measured against. */
  function Points(cs: seq<Candle>, width: nat, n: nat): seq<Point>
    requires n <= |cs|
  {
    if n == 0 then [] else Points(cs, width, n - 1) + (HighAt(cs, width, n - 1) + LowAt(cs, width, n - 1))
  }

  ghost predicate Before(ps: seq<Point>, n: int) {
    forall i | 0 <= i < |ps| :: ps[i].index < n
  }

  lemma PointsBefore(cs: seq<Candle>, width: nat, n: nat)
    requires n <= |cs|
    ensures Before(HighPoints(cs, width, n), n)
    ensures Before(LowPoints(cs, width, n), n)
    ensures Before(Points(cs, width, n), n)
  {
  }

  lemma InsertPastEarlier(p: Point, a: seq<Point>, b: seq<Point>)
    requires Before(a, p.index)
    ensures InsertByIndex(p, a + b) == a + InsertByIndex(p, b)
  {
    if a == [] {
      assert a + b == b;
    } else {
      assert (a + b)[1..] == a[1..] + b;
      InsertPastEarlier(p, a[1..], b);
    }
  }

  lemma InsertBeforeLater(p: Point, a: seq<Point>, b: seq<Point>)
    requires forall i | 0 <= i < |b| :: p.index <= b[i].index
    ensures InsertByIndex(p, a + b) == InsertByIndex(p, a) + b
  {
    if a == [] {
      assert a + b == b;
    } else {
      assert (a + b)[1..] == a[1..] + b;
      InsertBeforeLater(p, a[1..], b);
    }
  }

  lemma SortBefore(ps: seq<Point>, n: int)
    requires Before(ps, n)
    ensures Before(SortByIndex(ps), n)
  {
    if ps != [] {
      SortBefore(ps[1..], n);
      InsertKeepsBefore(ps[0], SortByIndex(ps[1..]), n);
    }
  }

  lemma InsertKeepsBefore(p: Point, ps: seq<Point>, n: int)
    requires Before(ps, n) && p.index < n
    ensures Before(InsertByIndex(p, ps), n)
  {
  }

  /** A point later than all the others sorts to the end, wherever it stood. */
  lemma {:induction false} SortLatest(a: seq<Point>, p: Point, b: seq<Point>)
    requires Before(a, p.index)
    requires Before(b, p.index)
    ensures SortByIndex(a + [p] + b) == SortByIndex(a + b) + [p]
  {
    if a == [] {
      assert a + [p] + b == [p] + b && a + b == b;
      assert ([p] + b)[1..] == b;
      SortBefore(b, p.index);
      var s := SortByIndex(b);
      assert s + [] == s;
      InsertPastEarlier(p, s, []);
    } else {
      assert (a + [p] + b)[1..] == a[1..] + [p] + b;
      assert (a + b)[1..] == a[1..] + b;
      SortLatest(a[1..], p, b);
      InsertBeforeLater(a[0], SortByIndex(a[1..] + b), [p]);
    }
  }

  /** Two points of the same, latest bar: the high was listed first and stays first. */
  lemma {:induction false} SortLatestPair(a: seq<Point>, h: Point, b: seq<Point>, l: Point)
    requires h.index == l.index
    requires Before(a, h.index)
    requires Before(b, h.index)
    ensures SortByIndex(a + [h] + b + [l]) == SortByIndex(a + b) + [h, l]
  {
    if a == [] {
      assert a + [h] + b + [l] == [h] + (b + [l]) && a + b == b;
      assert ([h] + (b + [l]))[1..] == b + [l];
      assert b + [l] + [] == b + [l] && b + [] == b;
      SortLatest(b, l, []);
      var s := SortByIndex(b);
      SortBefore(b, h.index);
      InsertPastEarlier(h, s, [l]);
      assert s + [h, l] == s + ([h] + [l]);
    } else {
      assert (a + [h] + b + [l])[1..] == a[1..] + [h] + b + [l];
      assert (a + b)[1..] == a[1..] + b;
      SortLatestPair(a[1..], h, b, l);
      InsertBeforeLater(a[0], SortByIndex(a[1..] + b), [h, l]);
    }
  }

  /** The latest bar's high (if any) and low (if any) sort to the end in that order. */
  lemma {:induction false} SortBar(H: seq<Point>, h: seq<Point>, L: seq<Point>, l: seq<Point>, n: nat)
    requires |h| <= 1 && |l| <= 1
    requires forall p | p in h + l :: p.index == n
    requires Before(H, n) && Before(L, n)
    ensures SortByIndex((H + h) + (L + l)) == SortByIndex(H + L) + (h + l)
  {
    if h != [] && l != [] {
      assert h == [h[0]] && l == [l[0]] && h[0] in h + l && l[0] in h + l;
      SortLatestPair(H, h[0], L, l[0]);
      assert (H + h) + (L + l) == H + [h[0]] + L + [l[0]];
    } else if h != [] {
      assert h == [h[0]] && h[0] in h + l;
      SortLatest(H, h[0], L);
      assert (H + h) + (L + l) == H + [h[0]] + L;
    } else if l != [] {
      assert l == [l[0]] && l[0] in h + l;
      SortLatest(H + L, l[0], []);
      assert (H + h) + (L + l) == (H + L) + [l[0]] + [] && (H + L) + [] == H + L;
    } else {
      assert (H + h) + (L + l) == H + L;
    }
  }

  /** Sorting the highs followed by the lows yields the points in bar order, a double
      fractal contributing its high first. */
  lemma {:induction false} SortedPoints(cs: seq<Candle>, width: nat, n: nat)
    requires n <= |cs|
    ensures SortByIndex(HighPoints(cs, width, n) + LowPoints(cs, width, n)) == Points(cs, width, n)
  {
    hide InsertByIndex, IsFractalHigh, IsFractalLow, HighAt, LowAt;
    if n > 0 {
      var H, L := HighPoints(cs, width, n - 1), LowPoints(cs, width, n - 1);
      var h, l := HighAt(cs, width, n - 1), LowAt(cs, width, n - 1);
      assert SortByIndex(H + L) == Points(cs, width, n - 1) by { SortedPoints(cs, width, n - 1); }
      assert SortByIndex((H + h) + (L + l)) == SortByIndex(H + L) + (h + l) by {
        PointsBefore(cs, width, n - 1);
        SortBar(H, h, L, l, n - 1);
      }
    }
  }

  // ----- swings

  /** The moves between consecutive points of opposite kinds. */
  function Legs(ps: seq<Point>): seq<Swing> {
    if |ps| < 2 then [] else
    var prev, cur := ps[|ps| - 2], ps[|ps| - 1];
    Legs(ps[..|ps| - 1])
    + if prev.kind == cur.kind then []
      else [Swing(prev.price, cur.price, if cur.kind == High then Up else Down, cur.index)]
  }

  /** detect_swings, as a value. */
  function Swings(cs: seq<Candle>, width: nat): seq<Swing> {
    Legs(Points(cs, width, |cs|))
  }

  method DetectSwings(cs: seq<Candle>, width: nat) returns (swings: seq<Swing>)
    ensures swings == Swings(cs, width)
  {
    hide HighPoints, LowPoints, SortByIndex, Points;
    var highs := HighPoints(cs, width, |cs|);
    var lows := LowPoints(cs, width, |cs|);
    var points := SortByIndex(highs + lows);
    SortedPoints(cs, width, |cs|);
    swings := [];
    if |points| > 0 {
      for j := 1 to |points|
        invariant swings == Legs(points[..j])
      {
        var prev, cur := points[j - 1], points[j];
        assert points[..j + 1][..j] == points[..j];
        if prev.kind != cur.kind {
          swings := swings + [Swing(prev.price, cur.price, if cur.kind == High then Up else Down, cur.index)];
        }
      }
      assert points[..|points|] == points;
    }
  }

  /** The swing, if any, that the points `q` (at most one) close after the points `ps`. */
  function LegInto(ps: seq<Point>, q: seq<Point>): seq<Swing>
    requires |q| <= 1
  {
    if ps == [] || q == [] || ps[|ps| - 1].kind == q[0].kind then []
    else [Swing(ps[|ps| - 1].price, q[0].price, if q[0].kind == High then Up else Down, q[0].index)]
  }

  lemma {:induction false} LegsAppend(ps: seq<Point>, q: seq<Point>)
    requires |q| <= 1
    ensures Legs(ps + q) == Legs(ps) + LegInto(ps, q)
  {
    if q == [] {
      assert ps + q == ps;
    } else {
      assert (ps + q)[..|ps|] == ps;
    }
  }

  /** The swings bar n closes. */
  function TailAt(cs: seq<Candle>, width: nat, n: nat): (r: seq<Swing>)
    requires n < |cs|
    ensures forall k | 0 <= k < |r| :: r[k].endIndex == n
  {
    var ps, h := Points(cs, width, n), HighAt(cs, width, n);
    LegInto(ps, h) + LegInto(ps + h, LowAt(cs, width, n))
  }

  lemma {:induction false} LegsOfBar(ps: seq<Point>, h: seq<Point>, l: seq<Point>)
    requires |h| <= 1 && |l| <= 1
    ensures Legs(ps + (h + l)) == Legs(ps) + (LegInto(ps, h) + LegInto(ps + h, l))
  {
    hide Legs, LegInto;
    LegsAppend(ps, h);
    LegsAppend(ps + h, l);
    Reassociate(ps, h, l);
    Reassociate(Legs(ps), LegInto(ps, h), LegInto(ps + h, l));
  }

  lemma Reassociate<T>(a: seq<T>, b: seq<T>, c: seq<T>)
    ensures (a + b) + c == a + (b + c)
  {
  }

  /** One more bar appends exactly the swings that end on that bar. */
  lemma {:induction false} LegsOfNextBar(cs: seq<Candle>, width: nat, n: nat)
    requires n < |cs|
    ensures Legs(Points(cs, width, n + 1)) == Legs(Points(cs, width, n)) + TailAt(cs, width, n)
  {
    LegsOfBar(Points(cs, width, n), HighAt(cs, width, n), LowAt(cs, width, n));
  }

  // ----- the structural bias

  function FibonacciLevels(s: Swing): FibLevels {
    var span := s.end - s.start;
    Levels(s.end - span * 0.236, s.end - span * 0.382, s.end - span * 0.5, s.end - span * 0.618,
           s.end - span * 0.786, s.end + span * (1.272 - 1.0), s.end + span * (1.618 - 1.0))
  }

  /** The last `lookback` swings; the slice [-0:] is the whole list. */
  function Recent(swings: seq<Swing>, lookback: nat): seq<Swing> {
    if lookback == 0 || |swings| <= lookback then swings else swings[|swings| - lookback..]
  }

  function LevelOf(s: Swing): SRLevel {
    SRLevel(s.end, if s.direction == Up then Resistance else Support)
  }

  function HorizontalSR(swings: seq<Swing>, lookback: nat): (levels: seq<SRLevel>)
    ensures |levels| == |Recent(swings, lookback)|
    ensures forall i | 0 <= i < |levels| :: levels[i] == LevelOf(Recent(swings, lookback)[i])
  {
    var recent := Recent(swings, lookback);
    seq(|recent|, i requires 0 <= i < |recent| => LevelOf(recent[i]))
  }

  method BuildHorizontalSR(swings: seq<Swing>, lookback: nat) returns (levels: seq<SRLevel>)
    ensures levels == HorizontalSR(swings, lookback)
  {
    var recent := Recent(swings, lookback);
    levels := [];
    for i := 0 to |recent|
      invariant |levels| == i && forall k | 0 <= k < i :: levels[k] == LevelOf(recent[k])
    {
      var kind := if recent[i].direction == Up then Resistance else Support;
      levels := levels + [SRLevel(recent[i].end, kind)];
    }
  }

  /** The first level of this kind at least distance from `price`. */
  function Closest(levels: seq<SRLevel>, price: real, kind: LevelKind): Option<SRLevel> {
    if levels == [] then None else
    var last := levels[|levels| - 1];
    var best := Closest(levels[..|levels| - 1], price, kind);
    if last.kind == kind && (best.None? || Abs(last.price - price) < Abs(best.value.price - price))
    then Some(last) else best
  }

  /** Up-swing holding above its 0.618 retracement and its nearest support, or the mirror. */
  function Verdict(swings: seq<Swing>, sr: seq<SRLevel>, price: real): Bias
    requires swings != []
  {
    var last := swings[|swings| - 1];
    var fib := FibonacciLevels(last);
    if last.direction == Up then
      var support := Closest(sr, price, Support);
      if price > fib.r618 && (support.None? || price > support.value.price) then Bullish else Neutral
    else
      var resistance := Closest(sr, price, Resistance);
      if price < fib.r618 && (resistance.None? || price < resistance.value.price) then Bearish else Neutral
  }

  function ComputeBias(cs: seq<Candle>, width: nat, lookback: nat): BiasResult {
    var swings := Swings(cs, width);
    if swings == [] then BiasResult(Neutral, None, NoLevels, []) else
    var last := swings[|swings| - 1];
    var sr := HorizontalSR(swings, lookback);
    BiasResult(Verdict(swings, sr, cs[|cs| - 1].close), Some(last), FibonacciLevels(last), sr)
  }
}
