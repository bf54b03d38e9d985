/** The structural bias under reflection (strategy/bias_4h.py, compute_bias). */
module BiasMirror {
  import opened Market
  import opened Bias4H
  import opened SwingMirror

  function MirrorLevel(K: real, lv: SRLevel): SRLevel {
    SRLevel(K - lv.price, if lv.kind == Support then Resistance else Support)
  }

  ghost predicate LevelsMirrored(K: real, a: seq<SRLevel>, b: seq<SRLevel>) {
    |a| == |b| && forall i | 0 <= i < |a| :: b[i] == MirrorLevel(K, a[i])
  }

  lemma {:induction false} ClosestMirror(K: real, a: seq<SRLevel>, b: seq<SRLevel>, price: real, kind: LevelKind)
    requires LevelsMirrored(K, a, b)
    ensures var other := if kind == Support then Resistance else Support;
            Closest(b, K - price, other)
            == match Closest(a, price, kind) case None => None case Some(lv) => Some(MirrorLevel(K, lv))
    decreases |a|
  {
    if a != [] {
      ClosestMirror(K, a[..|a| - 1], b[..|b| - 1], price, kind);
    }
  }

  lemma {:induction false} VerdictMirror(K: real, swings: seq<Swing>, lookback: nat, price: real)
    requires swings != []
    ensures Verdict(MirrorSwings(K, swings), HorizontalSR(MirrorSwings(K, swings), lookback), K - price)
            == MirrorBias(Verdict(swings, HorizontalSR(swings, lookback), price))
  {
    hide MirrorSwings, HorizontalSR, Closest;
    var a, b := HorizontalSR(swings, lookback), HorizontalSR(MirrorSwings(K, swings), lookback);
    ClosestMirror(K, a, b, price, Support);
    ClosestMirror(K, a, b, price, Resistance);
    FibMirror(K, swings[|swings| - 1]);
  }

  /** Reflection swaps BULLISH and BEARISH when no bar is a double fractal. */
  lemma {:induction false} ComputeBiasMirror(K: real, cs: seq<Candle>, width: nat, lookback: nat)
    requires NoDoubleFractal(cs, width)
    ensures ComputeBias(Mirror(K, cs), width, lookback).bias
            == MirrorBias(ComputeBias(cs, width, lookback).bias)
  {
    BarsBehindSwings(cs, width);
    hide NoDoubleFractal, Swings, MirrorSwings, HorizontalSR, Verdict;
    SwingsMirrorIff(K, cs, width);
    if Swings(cs, width) != [] {
      VerdictMirror(K, Swings(cs, width), lookback, cs[|cs| - 1].close);
    }
  }

  lemma BarsBehindSwings(cs: seq<Candle>, width: nat)
    ensures Swings(cs, width) != [] ==> cs != []
  {
  }

  lemma FibMirror(K: real, s: Swing)
    ensures FibonacciLevels(MirrorSwing(K, s)).r618 == K - FibonacciLevels(s).r618
  {
  }

  function FlatBars(): seq<Candle> {
    var c := Candle(0, 0, 1.0, 2.0, 0.0, 1.0, 1.0);
    [c, c, c, c, c]
  }

  /** Without the hypothesis the bias can break the symmetry: five equal bars are their own
      mirror image, and yet their bias is BEARISH rather than NEUTRAL. */
  lemma FlatBarsAreBearish()
    ensures Mirror(2.0, FlatBars()) == FlatBars()
    ensures ComputeBias(FlatBars(), FRACTAL_WIDTH, SR_LOOKBACK).bias == Bearish
  {
    var cs := FlatBars();
    FlatPoints();
    var ps := [Point(2, 2.0, High), Point(2, 0.0, Low)];
    assert ps == ps[..1] + [ps[1]] && Legs(ps[..1]) == [];
    assert Swings(cs, 2) == [Swing(2.0, 0.0, Down, 2)];
    var sr := HorizontalSR(Swings(cs, 2), 20);
    assert sr == [SRLevel(0.0, Support)];
    assert Closest(sr[..0], 1.0, Resistance) == None;
    assert Closest(sr, 1.0, Resistance) == None;
  }

  lemma FlatPoints()
    ensures Points(FlatBars(), 2, 5) == [Point(2, 2.0, High), Point(2, 0.0, Low)]
  {
    var cs := FlatBars();
    assert HighestHigh(cs, 0, 1) == HighestHigh(cs, 0, 2) == HighestHigh(cs, 0, 3) == HighestHigh(cs, 0, 4) == 2.0;
    assert LowestLow(cs, 0, 1) == LowestLow(cs, 0, 2) == LowestLow(cs, 0, 3) == LowestLow(cs, 0, 4) == 0.0;
    assert HighAt(cs, 2, 2) == [Point(2, 2.0, High)] && LowAt(cs, 2, 2) == [Point(2, 0.0, Low)];
    assert Points(cs, 2, 0) == Points(cs, 2, 1) == Points(cs, 2, 2) == [];
    assert Points(cs, 2, 3) == Points(cs, 2, 4) == Points(cs, 2, 5);
  }
}
