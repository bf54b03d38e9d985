/** Reflecting prices turns every swing upside down, exactly when no bar is both a fractal
    high and a fractal low: on such a bar the sort lists the high first on either side of the
    mirror, so one direction is lost. */
module SwingMirror {
  import opened Market
  import opened Bias4H
  import opened SwingStability

  function MirrorPoint(K: real, p: Point): Point {
    Point(p.index, K - p.price, if p.kind == High then Low else High)
  }

  function MirrorPoints(K: real, ps: seq<Point>): seq<Point> {
    if ps == [] then [] else MirrorPoints(K, ps[..|ps| - 1]) + [MirrorPoint(K, ps[|ps| - 1])]
  }

  function MirrorSwing(K: real, s: Swing): Swing {
    Swing(K - s.start, K - s.end, if s.direction == Up then Down else Up, s.endIndex)
  }

  function MirrorSwings(K: real, s: seq<Swing>): (r: seq<Swing>)
    ensures |r| == |s|
    ensures forall i | 0 <= i < |s| :: r[i] == MirrorSwing(K, s[i])
  {
    if s == [] then [] else MirrorSwings(K, s[..|s| - 1]) + [MirrorSwing(K, s[|s| - 1])]
  }

  ghost predicate NoDoubleFractal(cs: seq<Candle>, width: nat) {
    forall i: nat | i < |cs| :: !(IsFractalHigh(cs, i, width) && IsFractalLow(cs, i, width))
  }

  lemma {:induction false} MirrorPointsAppend(K: real, a: seq<Point>, b: seq<Point>)
    requires |b| <= 1
    ensures MirrorPoints(K, a + b) == MirrorPoints(K, a) + MirrorPoints(K, b)
  {
    if b == [] {
      assert a + b == a;
    } else {
      assert (a + b)[..|a|] == a;
      assert b[..0] == [];
    }
  }

  lemma {:induction false} MirrorPointsLast(K: real, ps: seq<Point>)
    ensures |MirrorPoints(K, ps)| == |ps|
    ensures ps != [] ==> MirrorPoints(K, ps)[|ps| - 1] == MirrorPoint(K, ps[|ps| - 1])
  {
    if ps != [] {
      MirrorPointsLast(K, ps[..|ps| - 1]);
    }
  }

  lemma {:induction false} LegsMirror(K: real, ps: seq<Point>)
    ensures Legs(MirrorPoints(K, ps)) == MirrorSwings(K, Legs(ps))
    decreases |ps|
  {
    if |ps| > 0 {
      var a, q := ps[..|ps| - 1], [ps[|ps| - 1]];
      assert ps == a + q;
      LegsMirror(K, a);
      MirrorPointsAppend(K, a, q);
      LegsAppend(a, q);
      LegsAppend(MirrorPoints(K, a), MirrorPoints(K, q));
      LegIntoMirror(K, a, q);
      MirrorSwingsAppend(K, Legs(a), LegInto(a, q));
    }
  }

  lemma {:induction false} LegIntoMirror(K: real, ps: seq<Point>, q: seq<Point>)
    requires |q| == 1
    ensures |MirrorPoints(K, q)| == 1
    ensures LegInto(MirrorPoints(K, ps), MirrorPoints(K, q)) == MirrorSwings(K, LegInto(ps, q))
  {
    MirrorPointsLast(K, ps);
    MirrorPointsLast(K, q);
  }

  lemma {:induction false} MirrorSwingsAppend(K: real, a: seq<Swing>, b: seq<Swing>)
    ensures MirrorSwings(K, a + b) == MirrorSwings(K, a) + MirrorSwings(K, b)
  {
  }

  lemma FractalMirror(K: real, cs: seq<Candle>, i: nat, width: nat)
    requires i < |cs|
    ensures IsFractalHigh(Mirror(K, cs), i, width) == IsFractalLow(cs, i, width)
    ensures IsFractalLow(Mirror(K, cs), i, width) == IsFractalHigh(cs, i, width)
  {
    if width <= i && i + width < |cs| {
      ExtremesMirror(K, cs, i - width, i + width + 1);
    }
  }

  lemma {:induction false} PointsAtMirror(K: real, cs: seq<Candle>, width: nat, i: nat)
    requires i < |cs|
    ensures HighAt(Mirror(K, cs), width, i) == MirrorPoints(K, LowAt(cs, width, i))
    ensures LowAt(Mirror(K, cs), width, i) == MirrorPoints(K, HighAt(cs, width, i))
  {
    hide IsFractalHigh, IsFractalLow;
    FractalMirror(K, cs, i, width);
    MirrorPointsLast(K, LowAt(cs, width, i));
    MirrorPointsLast(K, HighAt(cs, width, i));
  }

  /** A bar with at most one point contributes its mirror image, whichever list it is in. */
  lemma {:induction false} MirrorBar(K: real, ps: seq<Point>, h: seq<Point>, l: seq<Point>)
    requires |h| <= 1 && |l| <= 1 && (h == [] || l == [])
    ensures MirrorPoints(K, ps + (h + l)) == MirrorPoints(K, ps) + (MirrorPoints(K, l) + MirrorPoints(K, h))
  {
    if h == [] {
      assert h + l == l;
      MirrorPointsAppend(K, ps, l);
    } else {
      assert h + l == h;
      MirrorPointsAppend(K, ps, h);
    }
  }

  lemma AtMostOnePoint(cs: seq<Candle>, width: nat, i: nat)
    requires i < |cs| && NoDoubleFractal(cs, width)
    ensures HighAt(cs, width, i) == [] || LowAt(cs, width, i) == []
  {
  }

  lemma {:induction false} PointsMirrorStep(K: real, cs: seq<Candle>, width: nat, n: nat)
    requires 0 < n <= |cs| && NoDoubleFractal(cs, width)
    requires Points(Mirror(K, cs), width, n - 1) == MirrorPoints(K, Points(cs, width, n - 1))
    ensures Points(Mirror(K, cs), width, n) == MirrorPoints(K, Points(cs, width, n))
  {
    hide NoDoubleFractal, HighAt, LowAt, Mirror, MirrorPoints;
    AtMostOnePoint(cs, width, n - 1);
    PointsAtMirror(K, cs, width, n - 1);
    MirrorBar(K, Points(cs, width, n - 1), HighAt(cs, width, n - 1), LowAt(cs, width, n - 1));
  }

  lemma {:induction false} PointsMirror(K: real, cs: seq<Candle>, width: nat, n: nat)
    requires n <= |cs| && NoDoubleFractal(cs, width)
    ensures Points(Mirror(K, cs), width, n) == MirrorPoints(K, Points(cs, width, n))
  {
    if n > 0 {
      PointsMirror(K, cs, width, n - 1);
      PointsMirrorStep(K, cs, width, n);
    }
  }

  /** Per-bar pieces are determined by their concatenation. */
  lemma {:induction false} FlatInjective(a: seq<seq<Swing>>, b: seq<seq<Swing>>, n: nat)
    requires PerBar(a) && PerBar(b) && n < |a| == |b|
    requires Flat(a, |a|) == Flat(b, |b|)
    ensures a[n] == b[n]
  {
    hide PerBar, Flat, SwingsBefore;
    FlatBefore(a, n, |a|);
    FlatBefore(b, n, |b|);
    FlatBefore(a, n + 1, |a|);
    FlatBefore(b, n + 1, |b|);
    OnePieceMore(a, n);
    OnePieceMore(b, n);
    CancelPrefix(Flat(a, n), a[n], b[n]);
  }

  lemma OnePieceMore(tails: seq<seq<Swing>>, n: nat)
    requires n < |tails|
    ensures Flat(tails, n + 1) == Flat(tails, n) + tails[n]
  {
  }

  lemma CancelPrefix(x: seq<Swing>, u: seq<Swing>, v: seq<Swing>)
    requires x + u == x + v
    ensures u == v
  {
    assert u == (x + u)[|x|..] == (x + v)[|x|..] == v;
  }

  function MirrorTails(K: real, tails: seq<seq<Swing>>): (r: seq<seq<Swing>>)
    ensures |r| == |tails|
    ensures forall i | 0 <= i < |tails| :: r[i] == MirrorSwings(K, tails[i])
  {
    if tails == [] then []
    else MirrorTails(K, tails[..|tails| - 1]) + [MirrorSwings(K, tails[|tails| - 1])]
  }

  lemma {:induction false} FlatMirror(K: real, tails: seq<seq<Swing>>, k: nat)
    requires k <= |tails|
    ensures Flat(MirrorTails(K, tails), k) == MirrorSwings(K, Flat(tails, k))
  {
    if k > 0 {
      FlatMirror(K, tails, k - 1);
    }
  }

  /** On a double fractal the last swing closed runs down from the bar's own high. */
  lemma {:induction false} DoubleFractalEndsDown(cs: seq<Candle>, width: nat, i: nat)
    requires i < |cs| && IsFractalHigh(cs, i, width) && IsFractalLow(cs, i, width)
    ensures TailAt(cs, width, i) != []
    ensures TailAt(cs, width, i)[|TailAt(cs, width, i)| - 1].direction == Down
  {
    hide Points, HighestHigh, LowestLow;
    var ps, h, l := Points(cs, width, i), HighAt(cs, width, i), LowAt(cs, width, i);
    assert (ps + h)[|ps + h| - 1] == h[0];
  }

  lemma {:induction false} DoubleFractalBreaksMirror(K: real, cs: seq<Candle>, width: nat, i: nat)
    requires i < |cs| && IsFractalHigh(cs, i, width) && IsFractalLow(cs, i, width)
    ensures Swings(Mirror(K, cs), width) != MirrorSwings(K, Swings(cs, width))
  {
    hide TailAt, IsFractalHigh, IsFractalLow;
    var a, b := Tails(Mirror(K, cs), width), MirrorTails(K, Tails(cs, width));
    FractalMirror(K, cs, i, width);
    DoubleFractalEndsDown(cs, width, i);
    DoubleFractalEndsDown(Mirror(K, cs), width, i);
    assert a[i] != b[i];
    if Swings(Mirror(K, cs), width) == MirrorSwings(K, Swings(cs, width)) {
      FlatTails(cs, width, |cs|);
      FlatTails(Mirror(K, cs), width, |cs|);
      FlatMirror(K, Tails(cs, width), |cs|);
      FlatInjective(a, b, i);
      assert false;
    }
  }

  /** Swing detection commutes with reflection if and only if no bar is a double fractal. */
  lemma {:induction false} SwingsMirrorIff(K: real, cs: seq<Candle>, width: nat)
    ensures Swings(Mirror(K, cs), width) == MirrorSwings(K, Swings(cs, width))
            <==> NoDoubleFractal(cs, width)
  {
    if NoDoubleFractal(cs, width) {
      PointsMirror(K, cs, width, |cs|);
      LegsMirror(K, Points(cs, width, |cs|));
    } else {
      var i: nat :| i < |cs| && IsFractalHigh(cs, i, width) && IsFractalLow(cs, i, width);
      DoubleFractalBreaksMirror(K, cs, width, i);
    }
  }
}
