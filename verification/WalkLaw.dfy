/** backtest.py, run_backtest: the trades of a walk in terms of what was said of the bars and of where
    the simulated trades ended. */
module WalkLaw {
  import opened Market
  import opened Outcome
  import opened NoStop
  import opened WalkForward

  /** Bar j is the last before bar i that was evaluated. */
  predicate LastSeen(bars: seq<BarView>, j: nat, i: nat)
    requires i <= |bars|
  {
    40 <= j < i && bars[j].Seen? && forall k | j < k < i :: bars[k].Thin?
  }

  /** The bar takes a trade if it can: its signal is accepted, and its alignment is not that of the last
      bar that was evaluated; before the first there is none. */
  predicate Takes(bars: seq<BarView>, i: nat)
    requires i < |bars|
  {
    && bars[i].Seen? && bars[i].decision.Accepted? && bars[i].alignment.Some?
    && forall j | 0 <= j < i && LastSeen(bars, j, i) :: bars[j].alignment != bars[i].alignment
  }

  lemma {:induction false} PrevIs(bars: seq<BarView>, i: nat)
    requires i <= |bars|
    ensures forall j | 0 <= j < i && LastSeen(bars, j, i) :: PrevAlignment(bars, i) == bars[j].alignment
    ensures PrevAlignment(bars, i) == None || exists j | 0 <= j < i :: LastSeen(bars, j, i)
  {
    if i > WALK_WARMUP {
      var before := i - 1;
      PrevIs(bars, before);
      if bars[before].Seen? {
        assert LastSeen(bars, before, i);
      } else {
        forall j: nat | j < i ensures LastSeen(bars, j, i) <==> j < before && LastSeen(bars, j, before) {
        }
        if j: nat :| j < before && LastSeen(bars, j, before) {
          assert LastSeen(bars, j, i);
        }
      }
    }
  }

  lemma OfferIs(bars: seq<BarView>, i: nat)
    requires i < |bars|
    ensures Offered(bars, i) <==> Takes(bars, i)
  {
    PrevIs(bars, i);
    hide PrevAlignment, LastSeen;
  }

  predicate EntersAt(t: Taken, i: int) {
    match t
    case ByOutcome(trade) => trade.entryIndex == i
    case ByHold(hold) => hold.entryIndex == i
  }

  /** The trade has ended before bar i. */
  predicate EndsBefore(t: Taken, i: int) {
    match t
    case ByOutcome(trade) => trade.Resolved? && trade.exitIndex < i
    case ByHold(hold) => hold.HoldClosed? && hold.exitIndex < i
  }

  /** Every trade of a walk was entered at a bar of a new alignment whose signal was accepted, is what
      the simulator asked for makes of that signal, and had ended before the next trades began; and
      every such bar that is not an entry fell on a trade that had begun and not ended before it. */
  lemma {:induction false} WalkIs(exits: Exits, cs: seq<Candle>, bars: seq<BarView>, trades: seq<Taken>)
    requires |bars| == |cs| && TradesBefore(exits, cs, bars, trades, |bars|)
    ensures forall k | 0 <= k < |trades| :: TradeIs(exits, cs, bars, trades[k])
    ensures forall k, l, e | 0 <= k < l < |trades| && EntersAt(trades[l], e) :: EndsBefore(trades[k], e)
    ensures forall i: nat | 40 <= i < |bars| && Takes(bars, i) :: Met(trades, i)
  {
    hide Offered, Takes, IsOutcome, IsHold, EntryRaises;
    forall i: nat | i < |bars| ensures Offered(bars, i) <==> Takes(bars, i) {
      OfferIs(bars, i);
    }
    forall k | 0 <= k < |trades| ensures TradeIs(exits, cs, bars, trades[k]) {
      assert Simulated(exits, cs, bars, trades[k]);
    }
    forall i: nat | 40 <= i < |bars| && Takes(bars, i) ensures Met(trades, i) {
      MetIs(trades, i);
    }
  }

  ghost predicate TradeIs(exits: Exits, cs: seq<Candle>, bars: seq<BarView>, t: Taken)
    requires |bars| == |cs|
  {
    exists e: nat | 40 <= e < |bars| && EntersAt(t, e) ::
      && Takes(bars, e)
      && match t
         case ByOutcome(trade) =>
           && exits.StopTarget?
           && IsOutcome(bars[e].decision.signal, if exits.exhaustionExit then exits.series else [],
                        exits.threshold, cs, e, trade)
         case ByHold(hold) =>
           exits.NoStopHold? && IsHold(exits.exitModel, bars[e].decision.signal, exits.bias, [], cs, e, hold)
  }

  /** A trade begins here, or one that began before has not ended before. */
  ghost predicate Met(trades: seq<Taken>, i: int) {
    exists k | 0 <= k < |trades| :: EntersAt(trades[k], i) || OngoingAt(trades[k], i)
  }

  predicate OngoingAt(t: Taken, i: int) {
    !EndsBefore(t, i) && match t case ByOutcome(trade) => trade.entryIndex < i case ByHold(hold) => hold.entryIndex < i
  }

  lemma MetIs(trades: seq<Taken>, i: nat)
    requires TakenAt(trades, i) || Covered(trades, i)
    ensures Met(trades, i)
  {
    if k :| 0 <= k < |trades| && EntryOf(trades[k]) == i {
      assert EntersAt(trades[k], i);
    }
    if k :| 0 <= k < |trades| && OpenAt(trades[k], i) {
      assert OngoingAt(trades[k], i);
    }
  }
}
