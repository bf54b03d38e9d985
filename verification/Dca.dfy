/** scripts/track4_mean_reversion.py, run_config_dca: long episodes built from several equal
    tranches. The Fisher line and the daily bias directions are inputs. */
module Dca {
  import opened Market
  import opened Reals
  import opened Breakout

  const WARMUP_4H: nat := 60
  const REVERSAL_EXIT_LEVEL: real := 1.5

  datatype Trigger = Deeper | Divergence | Reversal

  datatype DcaRules = DcaRules(threshold: real, trigger: Trigger, maxAdds: nat, lookback: int, delta: real)

  datatype Tranche = Tranche(bar: nat, px: real)

  datatype Episode = Episode(tranches: seq<Tranche>, maeUnits: real, maeDeployed: real,
                             refLow: real, refLowFisher: real, epMin: real, refMin: real)

  datatype DcaExit = ByReversion | ByFisher | StillOpen

  datatype Settled = Settled(ep: Episode, exitIndex: nat, exitPx: real, avgEntry: real,
                             net: real, pnlUnits: real, reason: DcaExit)

  datatype DcaBook = DcaBook(closed: seq<Settled>, open: Option<Episode>)

  /** What a bar shows; windowLow is the lowest low of the trailing lookback, this bar included,
      None when that window is empty. */
  datatype View = View(low: real, close: real, fisher: real, bias: int, windowLow: Option<real>)

  // ----- the blended position

  function SumPx(ts: seq<Tranche>): real {
    if ts == [] then 0.0 else SumPx(ts[..|ts| - 1]) + ts[|ts| - 1].px
  }

  /** Sum of px0/px - 1 over the tranches: the gain at px0 of equal notionals bought at px. */
  function SumUnits(ts: seq<Tranche>, px0: real): real {
    if ts == [] then 0.0 else SumUnits(ts[..|ts| - 1], px0) + (Ratio(px0, ts[|ts| - 1].px) - 1.0)
  }

  function AvgEntry(ts: seq<Tranche>): real {
    Ratio(SumPx(ts), |ts| as real)
  }

  /** Return of the blended entry after round-trip fees. */
  function BlendedNet(ts: seq<Tranche>, px: real): real {
    Ratio(px, AvgEntry(ts)) - 1.0 - 2.0 * TAKER_FEE
  }

  function Settle(ep: Episode, i: nat, px: real, reason: DcaExit): Settled {
    var net := BlendedNet(ep.tranches, px);
    Settled(ep, i, px, AvgEntry(ep.tranches), net, |ep.tranches| as real * net, reason)
  }

  // ----- one bar

  function Marked(ep: Episode, v: View): Episode {
    var units := SumUnits(ep.tranches, v.low);
    ep.(maeUnits := Min(ep.maeUnits, units),
        maeDeployed := Min(ep.maeDeployed, Ratio(units, |ep.tranches| as real)))
  }

  predicate ExitsOn(ts: seq<Tranche>, v: View) {
    BlendedNet(ts, v.close) > 0.0 || v.fisher >= REVERSAL_EXIT_LEVEL
  }

  /** The episode's references after the bar, and whether the bar adds a tranche. */
  datatype Check = Check(ep: Episode, add: bool)

  function CheckAdd(rules: DcaRules, ep: Episode, v: View): Check {
    match rules.trigger
    case Deeper => Check(ep, v.fisher <= -(rules.threshold + 0.5 * |ep.tranches| as real))
    case Divergence =>
      if v.windowLow == Some(v.low) && v.low < ep.refLow
      then Check(ep.(refLow := v.low, refLowFisher := v.fisher), v.fisher > ep.refLowFisher)
      else Check(ep, false)
    case Reversal =>
      var ep := if v.fisher < ep.epMin then ep.(epMin := v.fisher) else ep;
      if ep.epMin < ep.refMin && v.fisher >= ep.epMin + rules.delta
      then Check(ep.(refMin := ep.epMin), true)
      else Check(ep, false)
  }

  function MaybeAdd(rules: DcaRules, ep: Episode, v: View, i: nat): Episode {
    if |ep.tranches| >= 1 + rules.maxAdds then ep else
    var check := CheckAdd(rules, ep, v);
    if check.add then check.ep.(tranches := ep.tranches + [Tranche(i, v.close)]) else check.ep
  }

  function OpenEpisode(rules: DcaRules, v: View, i: nat): Option<Episode> {
    if v.fisher <= -rules.threshold && v.bias == 1
    then Some(Episode([Tranche(i, v.close)], 0.0, 0.0, v.low, v.fisher, v.fisher, v.fisher))
    else None
  }

  function DcaStep(rules: DcaRules, v: View, i: nat, book: DcaBook): DcaBook {
    match book.open
    case None => DcaBook(book.closed, OpenEpisode(rules, v, i))
    case Some(ep) =>
      var ep := Marked(ep, v);
      if ExitsOn(ep.tranches, v) then
        var reason := if BlendedNet(ep.tranches, v.close) > 0.0 then ByReversion else ByFisher;
        DcaBook(book.closed + [Settle(ep, i, v.close, reason)], None)
      else DcaBook(book.closed, Some(MaybeAdd(rules, ep, v, i)))
  }

  function DcaRun(rules: DcaRules, vs: seq<View>, n: nat): DcaBook
    requires n <= |vs|
  {
    if n <= WARMUP_4H then DcaBook([], None)
    else DcaStep(rules, vs[n - 1], n - 1, DcaRun(rules, vs, n - 1))
  }

  // ----- where the walk raises

  predicate HasZeroPx(ts: seq<Tranche>) {
    exists k | 0 <= k < |ts| :: ts[k].px == 0.0
  }

  /** The bar divides by a tranche price or an average of zero, or takes the minimum of an empty
      window, which only the divergence check does. */
  predicate StepRaises(rules: DcaRules, v: View, book: DcaBook) {
    book.open.Some? &&
    var ts := book.open.value.tranches;
    || HasZeroPx(ts) || SumPx(ts) == 0.0
    || (!ExitsOn(ts, v) && |ts| < 1 + rules.maxAdds && rules.trigger == Divergence && v.windowLow.None?)
  }

  predicate RunRaises(rules: DcaRules, vs: seq<View>, n: nat)
    requires n <= |vs|
  {
    n > WARMUP_4H && (RunRaises(rules, vs, n - 1) || StepRaises(rules, vs[n - 1], DcaRun(rules, vs, n - 1)))
  }

  // ----- the loop

  /** Where the slice [i-lookback+1 : i+1] of n bars starts: a negative index counts from the end. */
  function WindowStart(n: nat, i: nat, lookback: int): (start: nat)
    ensures 1 <= lookback <= i + 1 ==> start == i + 1 - lookback
  {
    var s := i - lookback + 1;
    if s >= 0 then s else if n + s >= 0 then n + s else 0
  }

  function ViewAt(cs: seq<Candle>, fisher: seq<real>, dirs: seq<int>, closeMs: seq<int>, lookback: int, i: nat): View
    requires |fisher| == |cs| && |dirs| == |closeMs| && i < |cs|
  {
    var start := WindowStart(|cs|, i, lookback);
    View(cs[i].low, cs[i].close, fisher[i], BiasSignAt(dirs, closeMs, cs[i].closeTime),
         if start <= i then Some(LowestLow(cs, start, i + 1)) else None)
  }

  function Views(cs: seq<Candle>, fisher: seq<real>, dirs: seq<int>, closeMs: seq<int>, lookback: int): (r: seq<View>)
    requires |fisher| == |cs| && |dirs| == |closeMs|
    ensures |r| == |cs|
    ensures forall i | 0 <= i < |cs| :: r[i] == ViewAt(cs, fisher, dirs, closeMs, lookback, i)
  {
    seq(|cs|, i requires 0 <= i < |cs| => ViewAt(cs, fisher, dirs, closeMs, lookback, i))
  }

  /** The open episode, valued at the final close. */
  function Unresolved(cs: seq<Candle>, book: DcaBook): seq<Settled> {
    if book.open.Some? && cs != [] then [Settle(book.open.value, |cs| - 1, cs[|cs| - 1].close, StillOpen)] else []
  }

  /** All episodes, the open one last. */
  method RunConfigDca(cs: seq<Candle>, fisher: seq<real>, dirs: seq<int>, closeMs: seq<int>, rules: DcaRules)
    returns (r: Result<seq<Settled>>)
    requires |fisher| == |cs| && |dirs| == |closeMs|
    ensures var vs := Views(cs, fisher, dirs, closeMs, rules.lookback);
            var book := DcaRun(rules, vs, |cs|);
            && (r.Err? <==> RunRaises(rules, vs, |cs|)
                            || (book.open.Some? && SumPx(book.open.value.tranches) == 0.0))
            && (r.Ok? ==> r.value == book.closed + Unresolved(cs, book))
  {
    hide Settle, CheckAdd, BlendedNet, SumUnits, ViewAt, ExitsOn, SumPx, HasZeroPx, StepRaises;
    var n := |cs|;
    var episodes: seq<Settled> := [];
    var ep: Option<Episode> := None;
    ghost var vs := Views(cs, fisher, dirs, closeMs, rules.lookback);
    var i := WARMUP_4H;
    while i < n
      invariant i <= n || i == WARMUP_4H
      invariant i <= n ==> WARMUP_4H <= i && DcaBook(episodes, ep) == DcaRun(rules, vs, i) && !RunRaises(rules, vs, i)
      invariant n < WARMUP_4H ==> episodes == [] && ep == None
    {
      var v := ViewAt(cs, fisher, dirs, closeMs, rules.lookback, i);
      Raising(rules, vs, i, DcaBook(episodes, ep));
      if ep.Some? {
        var ts := ep.value.tranches;
        if HasZeroPx(ts) || SumPx(ts) == 0.0 {
          RaisesLater(rules, vs, i + 1, n);
          return Err("division by zero");
        }
        var e := Marked(ep.value, v);
        if ExitsOn(e.tranches, v) {
          var reason := if BlendedNet(e.tranches, v.close) > 0.0 then ByReversion else ByFisher;
          episodes, ep := episodes + [Settle(e, i, v.close, reason)], None;
        } else {
          if |e.tranches| < 1 + rules.maxAdds {
            if rules.trigger == Divergence && v.windowLow.None? {
              RaisesLater(rules, vs, i + 1, n);
              return Err("min() of an empty window");
            }
            var check := CheckAdd(rules, e, v);
            e := if check.add then check.ep.(tranches := e.tranches + [Tranche(i, v.close)]) else check.ep;
          }
          ep := Some(e);
        }
      } else {
        ep := OpenEpisode(rules, v, i);
      }
      i := i + 1;
    }
    if ep.Some? {
      if SumPx(ep.value.tranches) == 0.0 {
        return Err("division by zero");
      }
      episodes := episodes + [Settle(ep.value, n - 1, cs[n - 1].close, StillOpen)];
    }
    r := Ok(episodes);
  }

  lemma Raising(rules: DcaRules, vs: seq<View>, i: nat, book: DcaBook)
    requires WARMUP_4H <= i < |vs| && book == DcaRun(rules, vs, i) && !RunRaises(rules, vs, i)
    ensures RunRaises(rules, vs, i + 1) <==>
              book.open.Some? &&
              var ts := book.open.value.tranches;
              || HasZeroPx(ts) || SumPx(ts) == 0.0
              || (!ExitsOn(ts, vs[i]) && |ts| < 1 + rules.maxAdds
                  && rules.trigger == Divergence && vs[i].windowLow.None?)
  {
  }

  lemma {:induction false} RaisesLater(rules: DcaRules, vs: seq<View>, m: nat, n: nat)
    requires m <= n <= |vs| && RunRaises(rules, vs, m)
    ensures RunRaises(rules, vs, n)
    decreases n
  {
    if m < n {
      RaisesLater(rules, vs, m, n - 1);
    }
  }

}
