/** scripts/track4_mean_reversion.py, run_config_dca: the settled episodes of a run in terms of the
    prices paid and the bars seen. */
module DcaLaw {
  import opened Market
  import opened Reals
  import opened Sums
  import opened Breakout
  import opened Dca
  import opened DcaRuns

  // ----- what is held

  function Paid(ts: seq<Tranche>): int -> real {
    k => if 0 <= k < |ts| then ts[k].px else 0.0
  }

  /** One per tranche bought before the bar; */
  function Owned(ts: seq<Tranche>, bar: int): int -> real {
    k => if 0 <= k < |ts| && ts[k].bar < bar then 1.0 else 0.0
  }

  /** the price paid for it; */
  function PaidBy(ts: seq<Tranche>, bar: int): int -> real {
    k => if 0 <= k < |ts| && ts[k].bar < bar then ts[k].px else 0.0
  }

  /** and what it has gained at this price, in units of its own cost. */
  function GainBy(ts: seq<Tranche>, bar: int, px: real): int -> real {
    k => if 0 <= k < |ts| && ts[k].bar < bar && ts[k].px != 0.0 then px / ts[k].px - 1.0 else 0.0
  }

  lemma {:induction false} AllOwned(ts: seq<Tranche>, bar: int, px: real)
    requires forall k | 0 <= k < |ts| :: ts[k].bar < bar && ts[k].px > 0.0
    ensures Sum(Owned(ts, bar), 0, |ts|) == |ts| as real
    ensures Sum(PaidBy(ts, bar), 0, |ts|) == Sum(Paid(ts), 0, |ts|) == SumPx(ts)
    ensures Sum(GainBy(ts, bar, px), 0, |ts|) == SumUnits(ts, px)
  {
    if ts != [] {
      var n := |ts| - 1;
      AllOwned(ts[..n], bar, px);
      SumSame(Owned(ts[..n], bar), Owned(ts, bar), 0, n);
      SumSame(PaidBy(ts[..n], bar), PaidBy(ts, bar), 0, n);
      SumSame(Paid(ts[..n]), Paid(ts), 0, n);
      SumSame(GainBy(ts[..n], bar, px), GainBy(ts, bar, px), 0, n);
    }
  }

  ghost predicate Increasing(ts: seq<Tranche>) {
    forall j, k | 0 <= j < k < |ts| :: ts[j].bar < ts[k].bar
  }

  /** The position held into a bar, by what was bought before it. */
  lemma {:induction false} HeldInto(ts: seq<Tranche>, bar: int, px: real)
    requires Increasing(ts) && PositivePx(ts)
    ensures var held := BoughtBefore(ts, bar);
            && PositivePx(held)
            && |held| as real == Sum(Owned(ts, bar), 0, |ts|)
            && SumPx(held) == Sum(PaidBy(ts, bar), 0, |ts|)
            && SumUnits(held, px) == Sum(GainBy(ts, bar, px), 0, |ts|)
  {
    if ts == [] || ts[|ts| - 1].bar < bar {
      AllOwned(ts, bar, px);
    } else {
      var n := |ts| - 1;
      HeldInto(ts[..n], bar, px);
      SumSame(Owned(ts[..n], bar), Owned(ts, bar), 0, n);
      SumSame(PaidBy(ts[..n], bar), PaidBy(ts, bar), 0, n);
      SumSame(GainBy(ts[..n], bar, px), GainBy(ts, bar, px), 0, n);
    }
  }

  // ----- the exit

  /** The close of the position bought pays 0.15 percent on the average price. */
  lemma PaysIff(S: real, k: real, px: real, avg: real, net: real)
    requires S > 0.0 && k > 0.0 && avg == Ratio(S, k) && net == Ratio(px, avg) - 1.0 - 2.0 * TAKER_FEE
    ensures avg > 0.0 && avg * k == S && (net + 1.0015) * avg == px
    ensures net > 0.0 <==> px * k > 1.0015 * S
  {
    assert avg * k == S;
    assert avg > 0.0 by {
      if avg <= 0.0 {
        Sized(avg, k);
      }
    }
    var q := px / avg;
    assert q * avg == px;
    Beats(q, avg, k, px, S);
  }

  lemma Sized(a: real, k: real)
    requires a <= 0.0 && k > 0.0
    ensures a * k <= 0.0
  {
  }

  lemma Beats(q: real, avg: real, k: real, px: real, S: real)
    requires avg > 0.0 && k > 0.0 && avg * k == S && q * avg == px
    ensures q > 1.0015 <==> px * k > 1.0015 * S
  {
    assert S > 0.0;
    assert px * k == q * S;
    if q > 1.0015 {
      ProductPositive(q - 1.0015, S);
    } else if q < 1.0015 {
      ProductPositive(1.0015 - q, S);
    }
  }

  /** A bar lets the position go: its close pays, or the Fisher value has come back to 1.5. */
  predicate LetsGo(v: View, count: real, paid: real) {
    v.close * count > 1.0015 * paid || v.fisher >= 1.5
  }

  lemma LetsGoIs(ts: seq<Tranche>, v: View)
    requires ts != [] && PositivePx(ts)
    ensures ExitsOn(ts, v) <==> LetsGo(v, |ts| as real, SumPx(ts))
    ensures AvgEntry(ts) * |ts| as real == SumPx(ts)
    ensures (BlendedNet(ts, v.close) + 1.0015) * AvgEntry(ts) == v.close
    ensures BlendedNet(ts, v.close) > 0.0 <==> v.close * |ts| as real > 1.0015 * SumPx(ts)
  {
    hide Ratio, SumPx, PositivePx;
    SomethingPaid(ts);
    PaysIff(SumPx(ts), |ts| as real, v.close, AvgEntry(ts), BlendedNet(ts, v.close));
  }

  lemma SomethingPaid(ts: seq<Tranche>)
    requires ts != [] && PositivePx(ts)
    ensures SumPx(ts) > 0.0
  {
    HarmonicMean(ts);
  }

  /** The bar stands against what was bought before it. */
  predicate LetsGoAt(vs: seq<View>, ts: seq<Tranche>, i: nat)
    requires i < |vs|
  {
    LetsGo(vs[i], Sum(Owned(ts, i), 0, |ts|), Sum(PaidBy(ts, i), 0, |ts|))
  }

  lemma {:induction false} FirstIsBought(ts: seq<Tranche>, i: int)
    requires ts != [] && ts[0].bar < i
    ensures BoughtBefore(ts, i) != []
  {
    if ts[|ts| - 1].bar >= i {
      FirstIsBought(ts[..|ts| - 1], i);
    }
  }

  lemma HeldOn(vs: seq<View>, ts: seq<Tranche>, i: nat)
    requires i < |vs| && Increasing(ts) && PositivePx(ts) && ts != [] && ts[0].bar < i
    ensures ExitsOn(BoughtBefore(ts, i), vs[i]) <==> LetsGoAt(vs, ts, i)
  {
    hide BoughtBefore, ExitsOn, LetsGo, Sum;
    HeldInto(ts, i, 0.0);
    FirstIsBought(ts, i);
    LetsGoIs(BoughtBefore(ts, i), vs[i]);
  }

  ghost predicate PositiveCloses(vs: seq<View>) {
    forall i | 0 <= i < |vs| :: vs[i].close > 0.0
  }

  /** A settled episode of a run: held through every bar that would not let it go, sold at the close
      of the first that does, for what its average price makes of it. */
  lemma {:induction false} SettledIs(rules: DcaRules, vs: seq<View>, n: nat, j: nat)
    requires n <= |vs| && PositiveCloses(vs) && j < |DcaRun(rules, vs, n).closed|
    ensures var s := DcaRun(rules, vs, n).closed[j];
            var ts := s.ep.tranches;
            && ts != [] && ts[0].bar < s.exitIndex < n
            && LetsGoAt(vs, ts, s.exitIndex) && (forall i | ts[0].bar < i < s.exitIndex :: !LetsGoAt(vs, ts, i))
            && s.exitPx == vs[s.exitIndex].close
            && s.avgEntry * |ts| as real == Sum(Paid(ts), 0, |ts|)
            && (s.net + 1.0015) * s.avgEntry == s.exitPx
            && s.pnlUnits == |ts| as real * s.net
            && s.reason == if s.exitPx * |ts| as real > 1.0015 * Sum(Paid(ts), 0, |ts|) then ByReversion else ByFisher
  {
    hide DcaRun, SumUnits, BlendedNet, AvgEntry, TranchesOk, NoneMissed, ExitsOn, LetsGoAt, Sum, BoughtBefore, SumPx;
    var s := DcaRun(rules, vs, n).closed[j];
    var ts := s.ep.tranches;
    SettledShapeOf(rules, vs, n, j);
    AllOwned(ts, s.exitIndex, 0.0);
    LetsGoIs(ts, vs[s.exitIndex]);
    forall i | ts[0].bar < i <= s.exitIndex ensures ExitsOn(BoughtBefore(ts, i), vs[i]) <==> LetsGoAt(vs, ts, i) {
      HeldOn(vs, ts, i);
    }
    WholeAtExit(rules, vs, s, ts);
  }

  lemma {:induction false} SettledShapeOf(rules: DcaRules, vs: seq<View>, n: nat, j: nat)
    requires n <= |vs| && PositiveCloses(vs) && j < |DcaRun(rules, vs, n).closed|
    ensures var s := DcaRun(rules, vs, n).closed[j];
            var ts := s.ep.tranches;
            && SettledOk(rules, vs, s, n) && ts != [] && ts[0].bar < s.exitIndex
            && Increasing(ts) && PositivePx(ts)
            && forall k | 0 <= k < |ts| :: ts[k].bar < s.exitIndex
  {
    hide DcaRun, SumUnits, BlendedNet, AvgEntry, TranchesOk, StayedOpen, NoneMissed, ExcursionOk, Settle, OpensFirst;
    EveryEpisode(rules, vs, n);
    var s := DcaRun(rules, vs, n).closed[j];
    assert ClosedOk(rules, vs, DcaRun(rules, vs, n).closed, n, j);
    TrancheBarsIncrease(rules, vs, s.ep.tranches, s.exitIndex);
    SomeTranche(rules, vs, s.ep.tranches, s.exitIndex);
  }

  /** The exit bar is the one that let the whole position go. */
  lemma WholeAtExit(rules: DcaRules, vs: seq<View>, s: Settled, ts: seq<Tranche>)
    requires s.exitIndex < |vs| && ts == s.ep.tranches != [] && TranchesOk(rules, vs, ts, s.exitIndex)
    ensures BoughtBefore(ts, s.exitIndex) == ts
  {
    AllBought(rules, vs, ts, s.exitIndex);
  }

  // ----- the excursion

  /** The bar's low against what was bought before it. */
  function AtLow(vs: seq<View>, ts: seq<Tranche>, i: nat): real
    requires i < |vs|
  {
    Sum(GainBy(ts, i, vs[i].low), 0, |ts|)
  }

  /** The reported excursions of a settled episode: no bar after the first tranche, up to the exit,
      stands lower, in units of one tranche or per tranche owned; and some bar stands as low, unless
      the figure is zero. */
  lemma {:induction false} ExcursionIs(rules: DcaRules, vs: seq<View>, n: nat, j: nat)
    requires n <= |vs| && PositiveCloses(vs) && j < |DcaRun(rules, vs, n).closed|
    ensures var s := DcaRun(rules, vs, n).closed[j];
            var ts := s.ep.tranches;
            && ts != [] && ts[0].bar < s.exitIndex < n
            && Deepest(vs, ts, s.exitIndex + 1, s.ep.maeUnits, false)
            && Deepest(vs, ts, s.exitIndex + 1, s.ep.maeDeployed, true)
  {
    hide DcaRun, TranchesOk, NoneMissed, StayedOpen, Settle, Deepest, WorstUnits, WorstDeployed;
    SettledShapeOf(rules, vs, n, j);
    var s := DcaRun(rules, vs, n).closed[j];
    DeepestSoFar(vs, s.ep.tranches, s.exitIndex + 1);
  }

  function Share(vs: seq<View>, ts: seq<Tranche>, i: nat, x: real, each: bool): real
    requires i < |vs|
  {
    if each then x * Sum(Owned(ts, i), 0, |ts|) else x
  }

  ghost predicate Deepest(vs: seq<View>, ts: seq<Tranche>, n: nat, x: real, each: bool)
    requires ts != [] && n <= |vs|
  {
    && x <= 0.0
    && (forall i | ts[0].bar < i < n :: Share(vs, ts, i, x, each) <= AtLow(vs, ts, i))
    && (x == 0.0 || exists i | ts[0].bar < i < n :: Share(vs, ts, i, x, each) == AtLow(vs, ts, i))
  }

  lemma {:induction false} DeepestSoFar(vs: seq<View>, ts: seq<Tranche>, n: nat)
    requires ts != [] && n <= |vs| && Increasing(ts) && PositivePx(ts)
    ensures Deepest(vs, ts, n, WorstUnits(vs, ts, n), false)
    ensures Deepest(vs, ts, n, WorstDeployed(vs, ts, n), true)
  {
    hide Deepest, Increasing, PositivePx;
    if n <= ts[0].bar + 1 {
      NothingYet(vs, ts, n);
    } else {
      DeepestSoFar(vs, ts, n - 1);
      OneDeeper(vs, ts, n - 1, WorstUnits(vs, ts, n - 1), WorstDeployed(vs, ts, n - 1));
    }
  }

  lemma NothingYet(vs: seq<View>, ts: seq<Tranche>, n: nat)
    requires ts != [] && n <= |vs| && n <= ts[0].bar + 1
    ensures Deepest(vs, ts, n, 0.0, false) && Deepest(vs, ts, n, 0.0, true)
  {
  }

  lemma OneDeeper(vs: seq<View>, ts: seq<Tranche>, i: nat, x: real, y: real)
    requires ts != [] && ts[0].bar < i < |vs| && Increasing(ts) && PositivePx(ts)
    requires Deepest(vs, ts, i, x, false) && Deepest(vs, ts, i, y, true)
    ensures var held := BoughtBefore(ts, i);
            var units := SumUnits(held, vs[i].low);
            && Deepest(vs, ts, i + 1, Min(x, units), false)
            && Deepest(vs, ts, i + 1, Min(y, Ratio(units, |held| as real)), true)
  {
    var held := BoughtBefore(ts, i);
    HeldInto(ts, i, vs[i].low);
    FirstIsBought(ts, i);
    hide BoughtBefore, SumUnits, Sum, Deepest, PositivePx, Ratio, Increasing;
    DeeperBy(vs, ts, i, x, SumUnits(held, vs[i].low), |held| as real, false);
    DeeperBy(vs, ts, i, y, SumUnits(held, vs[i].low), |held| as real, true);
  }

  lemma DeeperBy(vs: seq<View>, ts: seq<Tranche>, i: nat, x: real, units: real, count: real, each: bool)
    requires ts != [] && ts[0].bar < i < |vs| && Deepest(vs, ts, i, x, each)
    requires count > 0.0 && count == Sum(Owned(ts, i), 0, |ts|) && units == AtLow(vs, ts, i)
    ensures Deepest(vs, ts, i + 1, Min(x, if each then Ratio(units, count) else units), each)
  {
    hide Sum, Share, Ratio, AtLow;
    LastShare(vs, ts, i, x, units, count);
    ShareLess(vs, ts, x, if each then Ratio(units, count) else units, each);
  }

  lemma LastShare(vs: seq<View>, ts: seq<Tranche>, i: nat, x: real, units: real, count: real)
    requires i < |vs| && count > 0.0 && count == Sum(Owned(ts, i), 0, |ts|) && units == AtLow(vs, ts, i)
    ensures Share(vs, ts, i, units, false) == AtLow(vs, ts, i)
    ensures Share(vs, ts, i, Ratio(units, count), true) == AtLow(vs, ts, i)
    ensures x <= units ==> Share(vs, ts, i, x, false) <= AtLow(vs, ts, i)
    ensures x <= Ratio(units, count) ==> Share(vs, ts, i, x, true) <= AtLow(vs, ts, i)
  {
    hide Sum, Owned;
    RatioTimes(units, count);
    var q := Ratio(units, count);
    if x <= q {
      Scaled(x, q, count);
    }
  }

  lemma Scaled(x: real, q: real, count: real)
    requires x <= q && count >= 0.0
    ensures x * count <= q * count
  {
    assert (q - x) * count >= 0.0;
  }

  lemma {:induction false} ShareLess(vs: seq<View>, ts: seq<Tranche>, x: real, y: real, each: bool)
    ensures y <= x ==> forall i | 0 <= i < |vs| :: Share(vs, ts, i, y, each) <= Share(vs, ts, i, x, each)
  {
    if y <= x {
      forall i | 0 <= i < |vs| ensures Share(vs, ts, i, y, each) <= Share(vs, ts, i, x, each) {
        hide Sum, Owned;
        var count := Sum(Owned(ts, i), 0, |ts|);
        OwnedNonNegative(ts, i);
        Scaled(y, x, count);
      }
    }
  }

  lemma OwnedNonNegative(ts: seq<Tranche>, i: int)
    ensures Sum(Owned(ts, i), 0, |ts|) >= 0.0
  {
    SumNonNegative(Owned(ts, i), 0, |ts|);
  }

  // ----- where it raises

  /** With positive closes nothing is divided by zero, and a window that reaches back no further than
      the series does is never empty: such a walk does not raise. */
  lemma {:induction false} NeverRaises(rules: DcaRules, vs: seq<View>, n: nat)
    requires n <= |vs| && PositiveCloses(vs)
    requires rules.trigger != Divergence || forall i | 60 <= i < |vs| :: vs[i].windowLow.Some?
    ensures !RunRaises(rules, vs, n)
    ensures DcaRun(rules, vs, n).open.Some? ==> SumPx(DcaRun(rules, vs, n).open.value.tranches) != 0.0
  {
    hide DcaRun, StepRaises, PositiveCloses, SumPx;
    if n > WARMUP_4H {
      NeverRaises(rules, vs, n - 1);
      OpenIsPriced(rules, vs, n - 1);
      StepFine(rules, vs[n - 1], DcaRun(rules, vs, n - 1));
    }
    OpenIsPriced(rules, vs, n);
  }

  lemma {:induction false} OpenIsPriced(rules: DcaRules, vs: seq<View>, n: nat)
    requires n <= |vs| && PositiveCloses(vs)
    ensures var o := DcaRun(rules, vs, n).open;
            o.Some? ==> PositivePx(o.value.tranches) && SumPx(o.value.tranches) > 0.0
  {
    hide DcaRun, ClosedOk, TranchesOk, RefsOk, NoneMissed, StayedOpen, ExcursionOk, OpensFirst, SumPx;
    EveryEpisode(rules, vs, n);
    var o := DcaRun(rules, vs, n).open;
    if o.Some? {
      TrancheBarsIncrease(rules, vs, o.value.tranches, n);
      SomeTranche(rules, vs, o.value.tranches, n);
      HarmonicMean(o.value.tranches);
    }
  }

  lemma StepFine(rules: DcaRules, v: View, book: DcaBook)
    requires book.open.Some? ==> PositivePx(book.open.value.tranches) && SumPx(book.open.value.tranches) > 0.0
    requires rules.trigger != Divergence || v.windowLow.Some?
    ensures !StepRaises(rules, v, book)
  {
    hide SumPx, ExitsOn;
  }

  /** A bar of a walk that has not raised raises exactly if a tranche of the position cost nothing, all
      of them together did, or the divergence check, come to, finds its window empty. */
  lemma RaisesAt(rules: DcaRules, vs: seq<View>, i: nat)
    requires 60 <= i < |vs| && !RunRaises(rules, vs, i)
    ensures RunRaises(rules, vs, i + 1) <==>
              DcaRun(rules, vs, i).open.Some? &&
              var ts := DcaRun(rules, vs, i).open.value.tranches;
              || (exists k | 0 <= k < |ts| :: ts[k].px == 0.0) || Sum(Paid(ts), 0, |ts|) == 0.0
              || (!ExitsOn(ts, vs[i]) && |ts| <= rules.maxAdds && rules.trigger == Divergence && vs[i].windowLow.None?)
  {
    hide DcaRun, ExitsOn, SumPx, Sum;
    Raising(rules, vs, i, DcaRun(rules, vs, i));
    if DcaRun(rules, vs, i).open.Some? {
      PaidIs(DcaRun(rules, vs, i).open.value.tranches);
    }
  }

  lemma {:induction false} PaidIs(ts: seq<Tranche>)
    ensures SumPx(ts) == Sum(Paid(ts), 0, |ts|)
  {
    if ts != [] {
      var n := |ts| - 1;
      PaidIs(ts[..n]);
      SumSame(Paid(ts[..n]), Paid(ts), 0, n);
    }
  }

  // ----- what a bar shows

  /** Where the slice that ends with bar i starts: `lookback` bars long, a start below zero counted from
      the end of the series. */
  function SliceStart(n: nat, i: nat, lookback: int): int {
    var start := i + 1 - lookback;
    if start >= 0 then start else if n + start >= 0 then n + start else 0
  }

  /** The low, the close and the Fisher value of the bar, and the lowest low of the slice, if there is a
      bar in it. */
  lemma {:induction false} ViewIs(cs: seq<Candle>, fisher: seq<real>, dirs: seq<int>, closeMs: seq<int>,
                                  lookback: int, i: nat)
    requires |fisher| == |cs| && |dirs| == |closeMs| && i < |cs|
    ensures var v, start := Views(cs, fisher, dirs, closeMs, lookback)[i], SliceStart(|cs|, i, lookback);
            && v.low == cs[i].low && v.close == cs[i].close && v.fisher == fisher[i]
            && start >= 0 && (v.windowLow.Some? <==> start <= i)
            && (v.windowLow.Some? ==>
                  && (forall j | start <= j <= i :: v.windowLow.value <= cs[j].low)
                  && (exists j | start <= j <= i :: v.windowLow.value == cs[j].low))
  {
    hide LowestLow, BiasSignAt;
    var start := WindowStart(|cs|, i, lookback);
    if start <= i {
      LowestIs(cs, start, i + 1);
    }
  }

  lemma {:induction false} LowestIs(cs: seq<Candle>, lo: nat, hi: nat)
    requires lo < hi <= |cs|
    ensures forall j | lo <= j < hi :: LowestLow(cs, lo, hi) <= cs[j].low
    ensures exists j | lo <= j < hi :: LowestLow(cs, lo, hi) == cs[j].low
  {
    if hi > lo + 1 {
      LowestIs(cs, lo, hi - 1);
    }
    assert LowestLow(cs, lo, hi) == cs[hi - 1].low
           || (hi > lo + 1 && LowestLow(cs, lo, hi) == LowestLow(cs, lo, hi - 1));
  }

  /** The bias of the bar is the sign given for the last bias bar that had closed by its close,
      none before the first. */
  lemma {:induction false} BiasOfView(cs: seq<Candle>, fisher: seq<real>, dirs: seq<int>, closeMs: seq<int>,
                                      lookback: int, i: nat, k: nat)
    requires |fisher| == |cs| && |dirs| == |closeMs| && i < |cs|
    requires k <= |closeMs| && (forall j | 0 <= j < k :: closeMs[j] <= cs[i].closeTime)
    requires k < |closeMs| ==> cs[i].closeTime < closeMs[k]
    ensures Views(cs, fisher, dirs, closeMs, lookback)[i].bias == if k == 0 then 0 else dirs[k - 1]
  {
    var b := BisectRight(closeMs, cs[i].closeTime);
    hide LowestLow;
    assert b == k;
  }
}
