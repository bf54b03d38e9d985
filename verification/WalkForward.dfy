/** backtest.py, run_backtest: the walk over trigger closes, one open trade at a time. What
    evaluate_signal says of each bar is an input; the trades are simulated here. */
module WalkForward {
  import opened Market
  import opened Signals
  import opened Outcome
  import opened NoStop

  const WALK_WARMUP: nat := 40

  /** A bar with too little bias history, or what the confluence and the gate made of it. */
  datatype BarView = Thin | Seen(alignment: Option<Direction>, decision: Decision)

  /** Which simulator runs, with its series. */
  datatype Exits =
    | StopTarget(exhaustionExit: bool, series: seq<FisherPoint>, threshold: real)
    | NoStopHold(bias: seq<BiasPoint>, exitModel: ExitModel)

  datatype Taken = ByOutcome(trade: Trade) | ByHold(hold: Hold)

  function EntryOf(t: Taken): nat {
    match t
    case ByOutcome(trade) => trade.entryIndex
    case ByHold(hold) => hold.entryIndex
  }

  function ExitOf(t: Taken): Option<nat> {
    match t
    case ByOutcome(trade) => if trade.Resolved? then Some(trade.exitIndex) else None
    case ByHold(hold) => if hold.HoldClosed? then Some(hold.exitIndex) else None
  }

  /** The alignment of the last bar before i that was evaluated. */
  function PrevAlignment(bars: seq<BarView>, i: nat): Option<Direction>
    requires i <= |bars|
  {
    if i <= WALK_WARMUP then None else
    match bars[i - 1]
    case Thin => PrevAlignment(bars, i - 1)
    case Seen(alignment, _) => alignment
  }

  /** A new alignment whose signal passed the gate. */
  predicate Offered(bars: seq<BarView>, i: nat)
    requires i < |bars|
  {
    && bars[i].Seen?
    && bars[i].alignment.Some? && bars[i].alignment != PrevAlignment(bars, i)
    && bars[i].decision.Accepted?
  }

  /** Simulating the entry of bar i raises: a trade without risk that some bar ends, or a hold
      without S/R levels to reject or with a zero entry. */
  ghost predicate EntryRaises(exits: Exits, cs: seq<Candle>, bars: seq<BarView>, i: nat)
    requires |bars| == |cs| && i < |cs| && Offered(bars, i)
  {
    var s := bars[i].decision.signal;
    match exits
    case StopTarget(on, series, threshold) =>
      RiskOf(s) == 0.0 && !RunsUntil(s, if on then series else [], threshold, cs, i, |cs|)
    case NoStopHold(_, exitModel) =>
      exitModel.ResistanceRejection? || (s.entry == 0.0 && i + 1 < |cs|)
  }

  /** The trade is what its simulator's rule says of the signal of its entry bar, and the simulation
      does not raise. */
  ghost predicate Simulated(exits: Exits, cs: seq<Candle>, bars: seq<BarView>, t: Taken)
    requires |bars| == |cs|
  {
    && WALK_WARMUP <= EntryOf(t) < |cs|
    && Offered(bars, EntryOf(t)) && !EntryRaises(exits, cs, bars, EntryOf(t))
    && var s := bars[EntryOf(t)].decision.signal;
       match t
       case ByOutcome(trade) =>
         exits.StopTarget?
         && IsOutcome(s, if exits.exhaustionExit then exits.series else [], exits.threshold, cs, EntryOf(t), trade)
       case ByHold(hold) =>
         exits.NoStopHold? && IsHold(exits.exitModel, s, exits.bias, [], cs, EntryOf(t), hold)
  }

  /** The exhaustion exit is on and there is no 4H series: raised before any bar is looked at. */
  predicate NoSeries(exits: Exits) {
    exits.StopTarget? && exits.exhaustionExit && exits.series == []
  }

  /** Bar i falls while the trade is open, its exit bar included. */
  predicate OpenAt(t: Taken, i: nat) {
    EntryOf(t) < i && (ExitOf(t).Some? ==> i <= ExitOf(t).value)
  }

  ghost predicate Covered(trades: seq<Taken>, i: nat) {
    exists k | 0 <= k < |trades| :: OpenAt(trades[k], i)
  }

  ghost predicate TakenAt(trades: seq<Taken>, i: nat) {
    exists k | 0 <= k < |trades| :: EntryOf(trades[k]) == i
  }

  /** Trades come one after the other: each but the last is resolved, and strictly before the
      next one's entry. */
  ghost predicate Disjoint(trades: seq<Taken>) {
    forall k, l | 0 <= k < l < |trades| :: ExitOf(trades[k]).Some? && ExitOf(trades[k]).value < EntryOf(trades[l])
  }

  ghost predicate EachSimulated(exits: Exits, cs: seq<Candle>, bars: seq<BarView>, trades: seq<Taken>)
    requires |bars| == |cs|
  {
    forall k | 0 <= k < |trades| :: Simulated(exits, cs, bars, trades[k])
  }

  /** Every offer before bar n was taken, unless a trade was open. */
  ghost predicate NoneMissed(bars: seq<BarView>, trades: seq<Taken>, n: nat)
    requires n <= |bars|
  {
    forall i: nat | WALK_WARMUP <= i < n && Offered(bars, i) :: TakenAt(trades, i) || Covered(trades, i)
  }

  /** The loop's one number stands for the whole list of trades. */
  ghost predicate OpenUntil(trades: seq<Taken>, openUntil: int, n: nat, total: nat) {
    && (forall k | 0 <= k < |trades| ::
          && EntryOf(trades[k]) < n
          && (ExitOf(trades[k]).Some? ==> EntryOf(trades[k]) < ExitOf(trades[k]).value <= openUntil)
          && (k < |trades| - 1 ==> ExitOf(trades[k]).Some?))
    && (trades == [] ==> openUntil == -1)
    && (trades != [] ==>
          openUntil == if ExitOf(trades[|trades| - 1]).Some? then ExitOf(trades[|trades| - 1]).value else total)
  }

  method SimulateEntry(cs: seq<Candle>, i: nat, bars: seq<BarView>, exits: Exits) returns (r: Result<Taken>)
    requires |bars| == |cs| && WALK_WARMUP <= i < |cs| && Offered(bars, i) && Chronological(cs)
    requires exits.StopTarget? ==> AscendingSeries(exits.series)
    requires !NoSeries(exits)
    ensures r.Err? <==> EntryRaises(exits, cs, bars, i)
    ensures r.Ok? ==> Simulated(exits, cs, bars, r.value) && EntryOf(r.value) == i
    ensures r.Ok? && ExitOf(r.value).Some? ==> i < ExitOf(r.value).value < |cs|
  {
    hide RunsUntil, Ends, CloseOut, HoldsUntil, ExitFill, WorstTo;
    var s := bars[i].decision.signal;
    if exits.StopTarget? {
      var t := SimulateOutcome(cs, i, s, exits.exhaustionExit, exits.series, exits.threshold);
      if t.Err? {
        return Err(t.error);
      }
      EntryOfOutcome(s, if exits.exhaustionExit then exits.series else [], exits.threshold, cs, i, t.value);
      return Ok(ByOutcome(t.value));
    }
    var h := SimulateNoStop(cs, i, s, Some(exits.bias), exits.exitModel, None);
    if h.Err? {
      return Err(h.error);
    }
    r := Ok(ByHold(h.value));
  }

  lemma EntryOfOutcome(s: Signal, series: seq<FisherPoint>, threshold: real, cs: seq<Candle>, i: nat, t: Trade)
    requires IsOutcome(s, series, threshold, cs, i, t)
    ensures t.entryIndex == i && (t.Resolved? ==> i < t.exitIndex < |cs|)
  {
  }

  /** The trades taken before bar i, were it the last to be looked at. */
  ghost predicate TradesBefore(exits: Exits, cs: seq<Candle>, bars: seq<BarView>, trades: seq<Taken>, i: nat)
    requires |bars| == |cs| && i <= |bars|
  {
    && EachSimulated(exits, cs, bars, trades) && Disjoint(trades) && NoneMissed(bars, trades, i)
    && forall k | 0 <= k < |trades| :: EntryOf(trades[k]) < i
  }

  /** The walk comes to an entry whose simulation raises. */
  ghost predicate RaisesAt(exits: Exits, cs: seq<Candle>, bars: seq<BarView>, trades: seq<Taken>, i: nat)
    requires |bars| == |cs| && i < |bars|
  {
    && WALK_WARMUP <= i && TradesBefore(exits, cs, bars, trades, i)
    && !Covered(trades, i) && Offered(bars, i) && EntryRaises(exits, cs, bars, i)
  }

  ghost predicate WalkRaises(exits: Exits, cs: seq<Candle>, bars: seq<BarView>)
    requires |bars| == |cs|
  {
    NoSeries(exits) || exists trades, i | 0 <= i < |bars| :: RaisesAt(exits, cs, bars, trades, i)
  }

  method Walk(cs: seq<Candle>, bars: seq<BarView>, exits: Exits) returns (r: Result<seq<Taken>>)
    requires |bars| == |cs| && Chronological(cs)
    requires exits.StopTarget? ==> AscendingSeries(exits.series)
    ensures r.Ok? ==> TradesBefore(exits, cs, bars, r.value, |bars|)
    ensures r.Err? <==> WalkRaises(exits, cs, bars)
  {
    hide Offered, Simulated, Disjoint, NoneMissed, OpenUntil, EachSimulated, RaisesAt, EntryRaises, TradesBefore;
    if NoSeries(exits) {
      return Err("fisher4h variants require candles_4h");
    }
    var n := |cs|;
    var trades: seq<Taken> := [];
    var prev: Option<Direction> := None;
    var openUntil := -1;
    WalkStarts(exits, cs, bars);
    for i := WALK_WARMUP to if n < WALK_WARMUP then WALK_WARMUP else n
      invariant i <= n ==> prev == PrevAlignment(bars, i)
      invariant EachSimulated(exits, cs, bars, trades) && Disjoint(trades)
      invariant i <= n ==> NoneMissed(bars, trades, i)
      invariant OpenUntil(trades, openUntil, i, |bars|)
      invariant n < WALK_WARMUP ==> trades == []
    {
      if bars[i].Thin? {
        NothingOffered(bars, trades, i, openUntil);
        continue;
      }
      var isNew := bars[i].alignment.Some? && bars[i].alignment != prev;
      prev := bars[i].alignment;
      if !isNew || i <= openUntil {
        if isNew {
          StillOpen(exits, cs, bars, trades, i, openUntil);
        } else {
          NothingOffered(bars, trades, i, openUntil);
        }
        continue;
      }
      if !bars[i].decision.Accepted? {
        NothingOffered(bars, trades, i, openUntil);
        continue;
      }
      OfferedHere(bars, i);
      var t := SimulateEntry(cs, i, bars, exits);
      if t.Err? {
        ComesTo(exits, cs, bars, trades, i, openUntil);
        return Err(t.error);
      }
      TradeAdded(exits, cs, bars, trades, i, openUntil, t.value, n);
      trades := trades + [t.value];
      openUntil := if ExitOf(t.value).Some? then ExitOf(t.value).value else n;
    }
    if n < WALK_WARMUP {
      TooShort(bars, trades);
    }
    WalkEnds(exits, cs, bars, trades, openUntil);
    NothingRaises(exits, cs, bars, trades);
    r := Ok(trades);
  }

  lemma WalkStarts(exits: Exits, cs: seq<Candle>, bars: seq<BarView>)
    requires |bars| == |cs|
    ensures EachSimulated(exits, cs, bars, []) && Disjoint([]) && OpenUntil([], -1, WALK_WARMUP, |bars|)
    ensures WALK_WARMUP <= |bars| ==> NoneMissed(bars, [], WALK_WARMUP)
  {
  }

  lemma TooShort(bars: seq<BarView>, trades: seq<Taken>)
    requires |bars| < WALK_WARMUP
    ensures NoneMissed(bars, trades, |bars|)
  {
  }

  lemma OfferedHere(bars: seq<BarView>, i: nat)
    requires i < |bars| && bars[i].Seen? && bars[i].decision.Accepted?
    requires bars[i].alignment.Some? && bars[i].alignment != PrevAlignment(bars, i)
    ensures Offered(bars, i)
  {
  }

  lemma LaterBar(trades: seq<Taken>, openUntil: int, i: nat, total: nat)
    requires OpenUntil(trades, openUntil, i, total)
    ensures OpenUntil(trades, openUntil, i + 1, total)
  {
  }

  lemma NothingOffered(bars: seq<BarView>, trades: seq<Taken>, i: nat, openUntil: int)
    requires WALK_WARMUP <= i < |bars| && NoneMissed(bars, trades, i) && OpenUntil(trades, openUntil, i, |bars|)
    requires bars[i].Thin? || bars[i].alignment.None? || bars[i].alignment == PrevAlignment(bars, i)
             || !bars[i].decision.Accepted?
    ensures NoneMissed(bars, trades, i + 1) && OpenUntil(trades, openUntil, i + 1, |bars|)
  {
    hide PrevAlignment, Covered, TakenAt;
    LaterBar(trades, openUntil, i, |bars|);
    hide OpenUntil;
    assert !Offered(bars, i);
  }

  lemma StillOpen(exits: Exits, cs: seq<Candle>, bars: seq<BarView>, trades: seq<Taken>, i: nat, openUntil: int)
    requires |bars| == |cs| && WALK_WARMUP <= i < |bars| && i <= openUntil
    requires NoneMissed(bars, trades, i) && OpenUntil(trades, openUntil, i, |bars|)
    ensures NoneMissed(bars, trades, i + 1) && OpenUntil(trades, openUntil, i + 1, |bars|)
  {
    LaterBar(trades, openUntil, i, |bars|);
    hide OpenUntil, Offered, Covered, TakenAt;
  }

  lemma TradeAdded(exits: Exits, cs: seq<Candle>, bars: seq<BarView>, trades: seq<Taken>, i: nat, openUntil: int,
                   t: Taken, n: nat)
    requires |bars| == |cs| == n && WALK_WARMUP <= i < n && openUntil < i
    requires EachSimulated(exits, cs, bars, trades) && Disjoint(trades)
    requires NoneMissed(bars, trades, i) && OpenUntil(trades, openUntil, i, |bars|)
    requires Simulated(exits, cs, bars, t) && EntryOf(t) == i
    requires ExitOf(t).Some? ==> i < ExitOf(t).value < n
    ensures EachSimulated(exits, cs, bars, trades + [t]) && Disjoint(trades + [t])
    ensures NoneMissed(bars, trades + [t], i + 1)
    ensures OpenUntil(trades + [t], if ExitOf(t).Some? then ExitOf(t).value else n, i + 1, n)
  {
    hide Offered, Simulated, NoneMissed, Covered, TakenAt;
    OfferTaken(bars, trades, t, i);
  }

  lemma OfferTaken(bars: seq<BarView>, trades: seq<Taken>, t: Taken, i: nat)
    requires WALK_WARMUP <= i < |bars| && NoneMissed(bars, trades, i) && EntryOf(t) == i
    ensures NoneMissed(bars, trades + [t], i + 1)
  {
    hide Offered, EntryOf, OpenAt;
    var all := trades + [t];
    assert all[|trades|] == t;
    forall j: nat | WALK_WARMUP <= j < i + 1 && Offered(bars, j) ensures TakenAt(all, j) || Covered(all, j) {
      if j < i {
        Grows(trades, t, j);
      }
    }
  }

  lemma Grows(trades: seq<Taken>, t: Taken, j: nat)
    ensures TakenAt(trades, j) ==> TakenAt(trades + [t], j)
    ensures Covered(trades, j) ==> Covered(trades + [t], j)
  {
    hide EntryOf, OpenAt;
    if TakenAt(trades, j) {
      var k :| 0 <= k < |trades| && EntryOf(trades[k]) == j;
      assert EntryOf((trades + [t])[k]) == j;
    }
    if Covered(trades, j) {
      var k :| 0 <= k < |trades| && OpenAt(trades[k], j);
      assert OpenAt((trades + [t])[k], j);
    }
  }

  // ----- the contract determines the trades

  lemma ComesTo(exits: Exits, cs: seq<Candle>, bars: seq<BarView>, trades: seq<Taken>, i: nat, openUntil: int)
    requires |bars| == |cs| && WALK_WARMUP <= i < |bars| && openUntil < i
    requires EachSimulated(exits, cs, bars, trades) && Disjoint(trades) && NoneMissed(bars, trades, i)
    requires OpenUntil(trades, openUntil, i, |bars|) && Offered(bars, i) && EntryRaises(exits, cs, bars, i)
    ensures RaisesAt(exits, cs, bars, trades, i)
  {
    hide EachSimulated, Disjoint, NoneMissed, Offered, EntryRaises;
  }

  lemma WalkEnds(exits: Exits, cs: seq<Candle>, bars: seq<BarView>, trades: seq<Taken>, openUntil: int)
    requires |bars| == |cs| && EachSimulated(exits, cs, bars, trades) && Disjoint(trades)
    requires NoneMissed(bars, trades, |bars|)
    ensures TradesBefore(exits, cs, bars, trades, |bars|)
  {
    hide Disjoint, NoneMissed, Offered;
  }

  lemma SimulatedExit(exits: Exits, cs: seq<Candle>, bars: seq<BarView>, t: Taken)
    requires |bars| == |cs| && Simulated(exits, cs, bars, t)
    ensures ExitOf(t).Some? ==> EntryOf(t) < ExitOf(t).value
  {
    hide RunsUntil, Ends, CloseOut, HoldsUntil, ExitFill, WorstTo, Offered;
  }

  /** One entry bar, one trade. */
  lemma SameTrade(exits: Exits, cs: seq<Candle>, bars: seq<BarView>, t: Taken, u: Taken)
    requires |bars| == |cs| && Simulated(exits, cs, bars, t) && Simulated(exits, cs, bars, u)
    requires EntryOf(t) == EntryOf(u)
    ensures t == u
  {
    hide IsOutcome, IsHold, EntryRaises;
    var i := EntryOf(t);
    var s := bars[i].decision.signal;
    if t.ByOutcome? {
      OutcomeUnique(s, if exits.exhaustionExit then exits.series else [], exits.threshold, cs, i, t.trade, u.trade);
    } else {
      HoldUnique(exits.exitModel, s, exits.bias, [], cs, i, t.hold, u.hold);
    }
  }

  ghost predicate Climbs(trades: seq<Taken>) {
    forall k, l | 0 <= k < l < |trades| :: EntryOf(trades[k]) < EntryOf(trades[l])
  }

  lemma EntriesClimb(exits: Exits, cs: seq<Candle>, bars: seq<BarView>, trades: seq<Taken>)
    requires |bars| == |cs| && EachSimulated(exits, cs, bars, trades) && Disjoint(trades)
    ensures Climbs(trades)
  {
    hide Simulated, EntryOf, ExitOf;
    forall k | 0 <= k < |trades| ensures ExitOf(trades[k]).Some? ==> EntryOf(trades[k]) < ExitOf(trades[k]).value {
      SimulatedExit(exits, cs, bars, trades[k]);
    }
  }

  /** Beyond the common beginning nothing in `b` is taken at, or open over, the entry of a[k]. */
  lemma NoneBetween(a: seq<Taken>, b: seq<Taken>, k: nat)
    requires k < |a| && k <= |b| && a[..k] == b[..k] && Disjoint(a) && Climbs(a) && Climbs(b)
    requires k < |b| ==> EntryOf(b[k]) > EntryOf(a[k])
    ensures !TakenAt(b, EntryOf(a[k])) && !Covered(b, EntryOf(a[k]))
  {
    hide EntryOf, ExitOf;
    var e := EntryOf(a[k]);
    forall l | 0 <= l < |b| ensures EntryOf(b[l]) != e && !OpenAt(b[l], e) {
      if l < k {
        assert b[l] == b[..k][l] == a[l];
      } else if l > k {
        assert EntryOf(b[k]) < EntryOf(b[l]);
      }
    }
  }

  /** With equal beginnings the next trade of `b` cannot come before that of `a`, nor before bar i
      if `a` has none: `a` would have missed it. */
  lemma NotBefore(bars: seq<BarView>, a: seq<Taken>, i: nat, b: seq<Taken>, k: nat)
    requires i <= |bars| && k <= |a| && k < |b| && a[..k] == b[..k]
    requires Disjoint(b) && Climbs(a) && Climbs(b) && NoneMissed(bars, a, i)
    requires k < |a| ==> EntryOf(a[k]) < i
    requires WALK_WARMUP <= EntryOf(b[k]) < |bars| && Offered(bars, EntryOf(b[k]))
    ensures EntryOf(b[k]) >= if k < |a| then EntryOf(a[k]) else i
  {
    hide EntryOf, ExitOf, Offered, TakenAt, Covered;
    if EntryOf(b[k]) < if k < |a| then EntryOf(a[k]) else i {
      NoneBetween(b, a, k);
      assert false;
    }
  }

  lemma SameNext(exits: Exits, cs: seq<Candle>, bars: seq<BarView>, a: seq<Taken>, i: nat, b: seq<Taken>, j: nat,
                 k: nat)
    requires |bars| == |cs| && i <= j <= |bars| && k < |a| && k <= |b| && a[..k] == b[..k]
    requires TradesBefore(exits, cs, bars, a, i) && TradesBefore(exits, cs, bars, b, j)
    ensures k < |b| && a[k] == b[k]
  {
    EntriesClimb(exits, cs, bars, a);
    EntriesClimb(exits, cs, bars, b);
    hide EntryOf, ExitOf, Offered, Climbs;
    var e := EntryOf(a[k]);
    assert Simulated(exits, cs, bars, a[k]);
    if k < |b| {
      assert Simulated(exits, cs, bars, b[k]);
      NotBefore(bars, a, i, b, k);
      if EntryOf(b[k]) > e {
        NoneBetween(a, b, k);
        assert false;
      }
      SameTrade(exits, cs, bars, a[k], b[k]);
    } else {
      NoneBetween(a, b, k);
      assert false;
    }
  }

  /** The trades taken before bar i begin every longer list of trades: the contract of Walk
      determines its result. */
  lemma {:induction false} TradesUnique(exits: Exits, cs: seq<Candle>, bars: seq<BarView>,
                                        a: seq<Taken>, i: nat, b: seq<Taken>, j: nat, k: nat)
    requires |bars| == |cs| && i <= j <= |bars| && k <= |a|
    requires TradesBefore(exits, cs, bars, a, i) && TradesBefore(exits, cs, bars, b, j)
    ensures k <= |b| && a[..k] == b[..k]
  {
    hide TradesBefore;
    if k > 0 {
      TradesUnique(exits, cs, bars, a, i, b, j, k - 1);
      SameNext(exits, cs, bars, a, i, b, j, k - 1);
      assert a[..k] == a[..k - 1] + [a[k - 1]] && b[..k] == b[..k - 1] + [b[k - 1]];
    }
  }

  /** A walk that got to the end met no entry that raises. */
  lemma {:induction false} NothingRaises(exits: Exits, cs: seq<Candle>, bars: seq<BarView>, trades: seq<Taken>)
    requires |bars| == |cs| && TradesBefore(exits, cs, bars, trades, |bars|) && !NoSeries(exits)
    ensures !WalkRaises(exits, cs, bars)
  {
    hide RaisesAt;
    forall a, i | 0 <= i < |bars| ensures !RaisesAt(exits, cs, bars, a, i) {
      NotThere(exits, cs, bars, trades, a, i);
    }
  }

  lemma {:induction false} NotThere(exits: Exits, cs: seq<Candle>, bars: seq<BarView>, trades: seq<Taken>,
                                    a: seq<Taken>, i: nat)
    requires |bars| == |cs| && i < |bars| && TradesBefore(exits, cs, bars, trades, |bars|)
    ensures !RaisesAt(exits, cs, bars, a, i)
  {
    if RaisesAt(exits, cs, bars, a, i) {
      TradesUnique(exits, cs, bars, a, i, trades, |bars|, |a|);
      EntriesClimb(exits, cs, bars, a);
      EntriesClimb(exits, cs, bars, trades);
      if |a| < |trades| {
        assert Simulated(exits, cs, bars, trades[|a|]);
        NotBefore(bars, a, i, trades, |a|);
      }
      NoTradeThere(exits, cs, bars, a, i, trades);
      assert false;
    }
  }

  lemma NoTradeThere(exits: Exits, cs: seq<Candle>, bars: seq<BarView>, a: seq<Taken>, i: nat, trades: seq<Taken>)
    requires |bars| == |cs| && WALK_WARMUP <= i < |bars| && |a| <= |trades| && a == trades[..|a|]
    requires EachSimulated(exits, cs, bars, trades) && Climbs(trades)
    requires !Covered(a, i) && Offered(bars, i) && EntryRaises(exits, cs, bars, i)
    requires |a| < |trades| ==> EntryOf(trades[|a|]) >= i
    ensures !TakenAt(trades, i) && !Covered(trades, i)
  {
    hide EntryOf, ExitOf, Offered, EntryRaises;
    forall l | 0 <= l < |trades| ensures EntryOf(trades[l]) != i && !OpenAt(trades[l], i) {
      assert Simulated(exits, cs, bars, trades[l]);
      if l < |a| {
        assert trades[l] == a[l];
      }
    }
  }
}
