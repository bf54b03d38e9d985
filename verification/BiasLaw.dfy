/** strategy/bias_4h.py: swings and bias from the candles alone. */
module BiasLaw {
  import opened Market
  import opened Bias4H

  // ----- fractals

  lemma {:induction false} ExtremesAre(cs: seq<Candle>, lo: nat, hi: nat)
    requires lo < hi <= |cs|
    ensures forall j | lo <= j < hi :: LowestLow(cs, lo, hi) <= cs[j].low && cs[j].high <= HighestHigh(cs, lo, hi)
    ensures exists j | lo <= j < hi :: cs[j].high == HighestHigh(cs, lo, hi)
    ensures exists j | lo <= j < hi :: cs[j].low == LowestLow(cs, lo, hi)
  {
    HighestIs(cs, lo, hi);
    LowestIs(cs, lo, hi);
  }

  lemma {:induction false} HighestIs(cs: seq<Candle>, lo: nat, hi: nat)
    requires lo < hi <= |cs|
    ensures forall j | lo <= j < hi :: cs[j].high <= HighestHigh(cs, lo, hi)
    ensures exists j | lo <= j < hi :: cs[j].high == HighestHigh(cs, lo, hi)
  {
    if hi == lo + 1 {
      assert cs[lo].high == HighestHigh(cs, lo, hi);
    } else {
      HighestIs(cs, lo, hi - 1);
      var h :| lo <= h < hi - 1 && cs[h].high == HighestHigh(cs, lo, hi - 1);
      assert cs[hi - 1].high == HighestHigh(cs, lo, hi) || cs[h].high == HighestHigh(cs, lo, hi);
    }
  }

  lemma {:induction false} LowestIs(cs: seq<Candle>, lo: nat, hi: nat)
    requires lo < hi <= |cs|
    ensures forall j | lo <= j < hi :: LowestLow(cs, lo, hi) <= cs[j].low
    ensures exists j | lo <= j < hi :: cs[j].low == LowestLow(cs, lo, hi)
  {
    if hi == lo + 1 {
      assert cs[lo].low == LowestLow(cs, lo, hi);
    } else {
      LowestIs(cs, lo, hi - 1);
      var l :| lo <= l < hi - 1 && cs[l].low == LowestLow(cs, lo, hi - 1);
      assert cs[hi - 1].low == LowestLow(cs, lo, hi) || cs[l].low == LowestLow(cs, lo, hi);
    }
  }

  /** No high within `width` bars on either side is higher, and all these bars are there; */
  predicate Peak(cs: seq<Candle>, i: nat, width: nat) {
    width <= i && i + width < |cs| && forall j | i - width <= j <= i + width :: cs[j].high <= cs[i].high
  }

  /** and no low is lower. */
  predicate Trough(cs: seq<Candle>, i: nat, width: nat) {
    width <= i && i + width < |cs| && forall j | i - width <= j <= i + width :: cs[j].low >= cs[i].low
  }

  lemma FractalIs(cs: seq<Candle>, i: nat, width: nat)
    ensures IsFractalHigh(cs, i, width) <==> Peak(cs, i, width)
    ensures IsFractalLow(cs, i, width) <==> Trough(cs, i, width)
  {
    if width <= i && i + width < |cs| {
      ExtremesAre(cs, i - width, i + width + 1);
    }
  }

  // ----- swings

  /** The last bar before bar n that is a peak or a trough. */
  function LastFractal(cs: seq<Candle>, width: nat, n: nat): (p: Option<nat>)
    requires n <= |cs|
    ensures p.Some? ==> p.value < n && (Peak(cs, p.value, width) || Trough(cs, p.value, width))
    ensures forall i | (if p.Some? then p.value + 1 else 0) <= i < n :: !Peak(cs, i, width) && !Trough(cs, i, width)
  {
    if n == 0 then None
    else if Peak(cs, n - 1, width) || Trough(cs, n - 1, width) then Some(n - 1)
    else LastFractal(cs, width, n - 1)
  }

  /** The swings that end on bar n: up from the low of the last fractal bar, if that was a trough, to
      this peak's high; down to this trough's low from this bar's own high, if it is a peak too, and
      otherwise from the high of the last fractal bar, if that was no trough. */
  function BarSwings(cs: seq<Candle>, width: nat, n: nat): seq<Swing>
    requires n < |cs|
  {
    var p := LastFractal(cs, width, n);
    (if Peak(cs, n, width) && p.Some? && Trough(cs, p.value, width)
     then [Swing(cs[p.value].low, cs[n].high, Up, n)] else [])
    + if !Trough(cs, n, width) then []
      else if Peak(cs, n, width) then [Swing(cs[n].high, cs[n].low, Down, n)]
      else if p.Some? && !Trough(cs, p.value, width) then [Swing(cs[p.value].high, cs[n].low, Down, n)] else []
  }

  function SwingsTo(cs: seq<Candle>, width: nat, n: nat): seq<Swing>
    requires n <= |cs|
  {
    if n == 0 then [] else SwingsTo(cs, width, n - 1) + BarSwings(cs, width, n - 1)
  }

  lemma BarPoints(cs: seq<Candle>, width: nat, n: nat)
    requires n < |cs|
    ensures var ps := HighAt(cs, width, n) + LowAt(cs, width, n);
            && (ps == [] <==> !Peak(cs, n, width) && !Trough(cs, n, width))
            && (ps != [] ==> ps[|ps| - 1] == if Trough(cs, n, width) then Point(n, cs[n].low, Low)
                                             else Point(n, cs[n].high, High))
  {
    hide Peak, Trough, IsFractalHigh, IsFractalLow;
    FractalIs(cs, n, width);
  }

  lemma LastOf(a: seq<Point>, b: seq<Point>)
    ensures a + b == [] <==> a == [] && b == []
    ensures b != [] ==> (a + b)[|a + b| - 1] == b[|b| - 1]
    ensures b == [] ==> a + b == a
  {
  }

  /** The last point collected: the low of the last fractal bar if it is a trough, else its high. */
  lemma {:induction false} LastPoint(cs: seq<Candle>, width: nat, n: nat)
    requires n <= |cs|
    ensures var ps, p := Points(cs, width, n), LastFractal(cs, width, n);
            && (ps == [] <==> p.None?)
            && (p.Some? ==> ps[|ps| - 1] == if Trough(cs, p.value, width) then Point(p.value, cs[p.value].low, Low)
                                            else Point(p.value, cs[p.value].high, High))
  {
    hide Peak, Trough, HighAt, LowAt;
    if n > 0 {
      LastPoint(cs, width, n - 1);
      BarPoints(cs, width, n - 1);
      LastOf(Points(cs, width, n - 1), HighAt(cs, width, n - 1) + LowAt(cs, width, n - 1));
    }
  }

  lemma {:induction false} BarSwingsAre(cs: seq<Candle>, width: nat, n: nat)
    requires n < |cs|
    ensures TailAt(cs, width, n) == BarSwings(cs, width, n)
  {
    hide Peak, Trough, IsFractalHigh, IsFractalLow, Points;
    LastPoint(cs, width, n);
    FractalIs(cs, n, width);
  }

  /** Detection finds, bar by bar, exactly these swings. */
  lemma {:induction false} SwingsAre(cs: seq<Candle>, width: nat, n: nat)
    requires n <= |cs|
    ensures Legs(Points(cs, width, n)) == SwingsTo(cs, width, n)
  {
    hide TailAt, BarSwings, Points, Legs;
    if n == 0 {
      NoLegs(cs, width);
    } else {
      SwingsAre(cs, width, n - 1);
      LegsOfNextBar(cs, width, n - 1);
      BarSwingsAre(cs, width, n - 1);
    }
  }

  lemma NoLegs(cs: seq<Candle>, width: nat)
    ensures Legs(Points(cs, width, 0)) == []
  {
  }

  // ----- the bias

  function Distance(x: real, y: real): real {
    if x >= y then x - y else y - x
  }

  /** Level k is the nearest of its kind to the price, the first of these if several are. */
  ghost predicate Nearest(levels: seq<SRLevel>, kind: LevelKind, price: real, k: nat) {
    && k < |levels| && levels[k].kind == kind
    && forall m | 0 <= m < |levels| && levels[m].kind == kind ::
         && Distance(levels[k].price, price) <= Distance(levels[m].price, price)
         && (m < k ==> Distance(levels[k].price, price) < Distance(levels[m].price, price))
  }

  ghost predicate NoneOf(levels: seq<SRLevel>, kind: LevelKind) {
    forall k | 0 <= k < |levels| :: levels[k].kind != kind
  }

  ghost predicate IsNearest(levels: seq<SRLevel>, kind: LevelKind, price: real, level: SRLevel) {
    exists k: nat :: Nearest(levels, kind, price, k) && levels[k] == level
  }

  lemma {:induction false} ClosestIs(levels: seq<SRLevel>, price: real, kind: LevelKind)
    ensures var c := Closest(levels, price, kind);
            if c.None? then NoneOf(levels, kind) else IsNearest(levels, kind, price, c.value)
  {
    hide NoneOf, IsNearest;
    if levels == [] {
      NoLevelsNone(kind);
    } else {
      var init, last := levels[..|levels| - 1], levels[|levels| - 1];
      ClosestIs(init, price, kind);
      var best := Closest(init, price, kind);
      if last.kind == kind && (best.None? || Abs(last.price - price) < Abs(best.value.price - price)) {
        LastIsNearest(levels, init, last, price, kind, best);
      } else {
        EarlierIsNearest(levels, init, last, price, kind, best);
      }
    }
  }

  lemma NoLevelsNone(kind: LevelKind)
    ensures NoneOf([], kind)
  {
  }

  lemma LastIsNearest(levels: seq<SRLevel>, init: seq<SRLevel>, last: SRLevel, price: real, kind: LevelKind,
                      best: Option<SRLevel>)
    requires levels == init + [last] && last.kind == kind
    requires if best.None? then NoneOf(init, kind) else IsNearest(init, kind, price, best.value)
    requires best.Some? ==> Abs(last.price - price) < Abs(best.value.price - price)
    ensures IsNearest(levels, kind, price, last)
  {
    forall m | 0 <= m < |init| && levels[m].kind == kind
      ensures Distance(last.price, price) < Distance(levels[m].price, price)
    {
      assert init[m].kind == kind;
    }
    assert Nearest(levels, kind, price, |init|);
  }

  lemma EarlierIsNearest(levels: seq<SRLevel>, init: seq<SRLevel>, last: SRLevel, price: real, kind: LevelKind,
                         best: Option<SRLevel>)
    requires levels == init + [last]
    requires if best.None? then NoneOf(init, kind) else IsNearest(init, kind, price, best.value)
    requires last.kind == kind ==> best.Some? && Abs(last.price - price) >= Abs(best.value.price - price)
    ensures if best.None? then NoneOf(levels, kind) else IsNearest(levels, kind, price, best.value)
  {
    if best.Some? {
      var k: nat :| Nearest(init, kind, price, k) && init[k] == best.value;
      assert Nearest(levels, kind, price, k);
    }
  }

  lemma NearestUnique(levels: seq<SRLevel>, kind: LevelKind, price: real, j: nat, k: nat)
    requires Nearest(levels, kind, price, j) && Nearest(levels, kind, price, k)
    ensures j == k
  {
  }

  /** The levels: the ends of the last `lookback` swings in order, resistance after a rise and
      support after a fall. */
  ghost predicate LevelsAre(levels: seq<SRLevel>, swings: seq<Swing>, lookback: nat) {
    && |levels| == (if lookback == 0 || |swings| < lookback then |swings| else lookback)
    && forall i | 0 <= i < |levels| ::
         var s := swings[|swings| - |levels| + i];
         levels[i].price == s.end && levels[i].kind == if s.direction == Up then Resistance else Support
  }

  /** The close is on this side of the nearest level of the kind, if there is one. */
  ghost predicate Holds(levels: seq<SRLevel>, kind: LevelKind, price: real) {
    forall k: nat | Nearest(levels, kind, price, k) ::
      if kind == Support then price > levels[k].price else price < levels[k].price
  }

  /** BULLISH exactly if the last swing rose, the close holds above its 0.618 retracement and above
      the nearest support, if there is one; BEARISH in the mirrored case; NEUTRAL otherwise. */
  lemma {:induction false} BiasIs(cs: seq<Candle>, width: nat, lookback: nat)
    ensures var swings, r := SwingsTo(cs, width, |cs|), ComputeBias(cs, width, lookback);
            if swings == [] then r == BiasResult(Neutral, None, NoLevels, [])
            else
              var last, price := swings[|swings| - 1], cs[|cs| - 1].close;
              var mark := last.end - 0.618 * (last.end - last.start);
              && r.swing == Some(last) && LevelsAre(r.sr, swings, lookback)
              && (r.bias == Bullish <==> last.direction == Up && price > mark && Holds(r.sr, Support, price))
              && (r.bias == Bearish <==> last.direction == Down && price < mark && Holds(r.sr, Resistance, price))
  {
    SwingsAre(cs, width, |cs|);
    hide Points, Legs, SwingsTo, Verdict, HorizontalSR, LevelsAre, Holds;
    var swings := SwingsTo(cs, width, |cs|);
    if swings != [] {
      LevelsFrom(swings, lookback);
      VerdictIs(swings, HorizontalSR(swings, lookback), cs[|cs| - 1].close);
    }
  }

  lemma VerdictIs(swings: seq<Swing>, sr: seq<SRLevel>, price: real)
    requires swings != []
    ensures var last := swings[|swings| - 1];
            var mark := last.end - 0.618 * (last.end - last.start);
            && (Verdict(swings, sr, price) == Bullish <==>
                  last.direction == Up && price > mark && Holds(sr, Support, price))
            && (Verdict(swings, sr, price) == Bearish <==>
                  last.direction == Down && price < mark && Holds(sr, Resistance, price))
  {
    hide Closest, Holds;
    HoldsIs(sr, Support, price);
    HoldsIs(sr, Resistance, price);
  }

  lemma HoldsIs(levels: seq<SRLevel>, kind: LevelKind, price: real)
    ensures var c := Closest(levels, price, kind);
            Holds(levels, kind, price)
            <==> c.None? || if kind == Support then price > c.value.price else price < c.value.price
  {
    ClosestIs(levels, price, kind);
    hide Closest;
    forall j: nat, k: nat | Nearest(levels, kind, price, j) && Nearest(levels, kind, price, k) ensures j == k {
      NearestUnique(levels, kind, price, j, k);
    }
  }

  lemma LevelsFrom(swings: seq<Swing>, lookback: nat)
    ensures LevelsAre(HorizontalSR(swings, lookback), swings, lookback)
  {
    hide Recent;
    var levels := HorizontalSR(swings, lookback);
    RecentLength(swings, lookback);
    forall i | 0 <= i < |levels|
      ensures Recent(swings, lookback)[i] == swings[|swings| - |levels| + i]
    {
      RecentAt(swings, lookback, i);
    }
    hide HorizontalSR;
  }

  lemma RecentLength(swings: seq<Swing>, lookback: nat)
    ensures |Recent(swings, lookback)| == if lookback == 0 || |swings| < lookback then |swings| else lookback
  {
  }

  lemma RecentAt(swings: seq<Swing>, lookback: nat, i: nat)
    requires i < |Recent(swings, lookback)|
    ensures |Recent(swings, lookback)| <= |swings|
    ensures Recent(swings, lookback)[i] == swings[|swings| - |Recent(swings, lookback)| + i]
  {
  }

  /** The retracements and extensions of a swing. */
  lemma FibIs(s: Swing)
    ensures var f, span := FibonacciLevels(s), s.end - s.start;
            && f.r236 == s.end - 0.236 * span && f.r382 == s.end - 0.382 * span && f.r500 == s.end - 0.5 * span
            && f.r618 == s.end - 0.618 * span && f.r786 == s.end - 0.786 * span
            && f.x1272 == s.start + 1.272 * span && f.x1618 == s.start + 1.618 * span
  {
  }
}
