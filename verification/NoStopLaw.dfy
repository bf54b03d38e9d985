/** backtest.py, _simulate_no_stop_exit: what a hold says of the candles and of the 4H series, written
    out over their fields. */
module NoStopLaw {
  import opened Market
  import opened Reals
  import opened Bias4H
  import opened Signals
  import opened Outcome
  import opened NoStop

  /** The move from the entry to this price, in the trade's favour. */
  function Move(s: Signal, px: real): real {
    if s.direction == Long then px - s.entry else s.entry - px
  }

  /** The bar's best and worst price for the trade. */
  function BestOf(s: Signal, c: Candle): real {
    if s.direction == Long then c.high else c.low
  }

  function WorstOf(s: Signal, c: Candle): real {
    if s.direction == Long then c.low else c.high
  }

  function RiskIn(s: Signal): real {
    if s.entry >= s.stop then s.entry - s.stop else s.stop - s.entry
  }

  // ----- the five favourable exits

  /** The close covers a fee on each side, both charged on the entry. */
  predicate Pays(s: Signal, c: Candle) {
    Move(s, c.close) > 0.0015 * s.entry
  }

  /** Some bar after entry, up to j, was this many risks in favour; a threshold of zero or less is met
      by the first bar. */
  ghost predicate WasAhead(s: Signal, cs: seq<Candle>, entryIndex: nat, risks: real, j: nat)
    requires j < |cs|
  {
    && entryIndex < j && RiskIn(s) != 0.0
    && (risks <= 0.0 || CameTo(s, cs, entryIndex, j, Times(risks, RiskIn(s))))
  }

  ghost predicate CameTo(s: Signal, cs: seq<Candle>, entryIndex: nat, j: nat, move: real)
    requires j < |cs|
  {
    exists i | entryIndex < i <= j :: Move(s, BestOf(s, cs[i])) >= move
  }

  /** The best price since entry, up to bar j. */
  ghost predicate BestSince(s: Signal, cs: seq<Candle>, entryIndex: nat, j: nat, px: real)
    requires j < |cs|
  {
    && Move(s, px) >= 0.0 && (forall i | entryIndex < i <= j :: Move(s, px) >= Move(s, BestOf(s, cs[i])))
    && (px == s.entry || exists i | entryIndex < i <= j :: px == BestOf(s, cs[i]))
  }

  /** The price that far ahead of another, in the trade's favour. */
  function Ahead(s: Signal, px: real, distance: real): real {
    if s.direction == Long then px + distance else px - distance
  }

  /** The price lies this many risks behind the best one since entry, up to bar j. */
  ghost predicate TrailsAt(s: Signal, cs: seq<Candle>, entryIndex: nat, j: nat, behind: real, px: real)
    requires j < |cs|
  {
    BestSince(s, cs, entryIndex, j, Ahead(s, px, Times(behind, RiskIn(s))))
  }

  /** The last point of an ascending list of times that is not beyond t. */
  predicate LastBy(times: seq<int>, t: int, k: nat) {
    k < |times| && (forall i | 0 <= i <= k :: times[i] <= t) && (k + 1 < |times| ==> times[k + 1] > t)
  }

  /** The nearest level of this kind that lies beyond the price on the winning side. */
  predicate NextLevel(s: Signal, br: BiasResult, price: real, level: real) {
    var kind := if s.direction == Long then Resistance else Support;
    && (exists k | 0 <= k < |br.sr| :: br.sr[k].kind == kind && br.sr[k].price == level)
    && (if s.direction == Long then level > price else level < price)
    && forall k | 0 <= k < |br.sr| && br.sr[k].kind == kind ::
         if s.direction == Long then br.sr[k].price <= price || br.sr[k].price >= level
         else br.sr[k].price >= price || br.sr[k].price <= level
  }

  /** The bar trades into the level that lay ahead of the close before it, and closes back. */
  ghost predicate TurnedBack(s: Signal, sr: seq<SrPoint>, before: real, c: Candle) {
    exists k: nat, level | LastBy(SrTimes(sr), c.closeTime, k) && NextLevel(s, sr[k].result, before, level) ::
      if s.direction == Long then c.close < level <= c.high else c.low <= level < c.close
  }

  /** What the model takes as a favourable exit at bar j, at this price. */
  ghost predicate Favours(m: ExitModel, s: Signal, sr: seq<SrPoint>, cs: seq<Candle>, entryIndex: nat, j: nat, px: real)
    requires entryIndex < j < |cs|
  {
    match m
    case FirstProfit => Pays(s, cs[j]) && px == cs[j].close
    case MinMoveFirstProfit(risks) =>
      WasAhead(s, cs, entryIndex, risks, j) && Pays(s, cs[j]) && px == cs[j].close
    case FibTarget => Move(s, BestOf(s, cs[j])) >= Move(s, s.target) && px == s.target
    case ResistanceRejection => TurnedBack(s, sr, cs[j - 1].close, cs[j]) && px == cs[j].close
    case TrailingOnceProfitable(risks, behind) =>
      && WasAhead(s, cs, entryIndex, risks, j - 1)
      && Move(s, WorstOf(s, cs[j])) <= Move(s, px)
      && TrailsAt(s, cs, entryIndex, j - 1, behind, px)
  }

  /** The 4H bias last closed by this bar is not the one the trade goes with. */
  ghost predicate Braked(s: Signal, bias: seq<BiasPoint>, c: Candle) {
    exists k: nat | LastBy(BiasTimes(bias), c.closeTime, k) ::
      bias[k].bias != if s.direction == Long then Bullish else Bearish
  }

  lemma BisectLast(times: seq<int>, t: int)
    ensures var n := BisectRight(times, t); n > 0 ==> LastBy(times, t, n - 1)
    ensures forall k: nat | LastBy(times, t, k) :: k == BisectRight(times, t) - 1
  {
  }

  lemma BrakeIs(s: Signal, bias: seq<BiasPoint>, c: Candle)
    ensures Brake(s, bias, c) <==> Braked(s, bias, c)
  {
    hide LastBy;
    BisectLast(BiasTimes(bias), c.closeTime);
  }

  lemma PaysIs(s: Signal, c: Candle)
    requires s.entry > 0.0
    ensures Profitable(s, c) <==> Pays(s, c)
  {
    hide Ratio;
    RatioTimes(Gain(s, c.close), s.entry);
    TriggerMove(Ratio(Gain(s, c.close), s.entry), Gain(s, c.close), s.entry);
  }

  // ----- how far it went

  lemma FavorIs(s: Signal, c: Candle)
    requires s.entry > 0.0
    ensures Times(FavorFrac(s, c), s.entry) == Move(s, BestOf(s, c))
    ensures Times(AdverseFrac(s, c), s.entry) == Move(s, WorstOf(s, c))
  {
  }

  lemma {:induction false} BestBounds(s: Signal, cs: seq<Candle>, entryIndex: nat, j: nat)
    requires j < |cs| && s.entry > 0.0
    ensures var best := Times(BestTo(s, cs, entryIndex, j), s.entry);
            && best >= 0.0
            && (forall i | entryIndex < i <= j :: best >= Move(s, BestOf(s, cs[i])))
            && (best == 0.0 || exists i | entryIndex < i <= j :: best == Move(s, BestOf(s, cs[i])))
  {
    hide FavorFrac, Move, BestOf, Times;
    if j > entryIndex {
      BestBounds(s, cs, entryIndex, j - 1);
      FavorIs(s, cs[j]);
      MaxTimes(BestTo(s, cs, entryIndex, j - 1), FavorFrac(s, cs[j]), s.entry);
    } else {
      Nothing(s.entry);
    }
  }

  lemma Nothing(x: real)
    ensures Times(0.0, x) == 0.0
  {
  }

  lemma AheadIs(s: Signal, cs: seq<Candle>, entryIndex: nat, risks: real, j: nat)
    requires j < |cs| && s.entry > 0.0
    ensures ArmedBy(s, cs, entryIndex, risks, j) <==> WasAhead(s, cs, entryIndex, risks, j)
  {
    hide RFrac, RiskIn, BestTo, CameTo, Times;
    RFracIs(s);
    var best := BestTo(s, cs, entryIndex, j);
    CameToIs(s, cs, entryIndex, j, Times(risks, RiskIn(s)));
    Armed(best, RFrac(s), risks, RiskIn(s), s.entry);
  }

  lemma CameToIs(s: Signal, cs: seq<Candle>, entryIndex: nat, j: nat, move: real)
    requires j < |cs| && s.entry > 0.0
    ensures Times(BestTo(s, cs, entryIndex, j), s.entry) >= 0.0
    ensures move > 0.0 ==>
              (Times(BestTo(s, cs, entryIndex, j), s.entry) >= move <==> CameTo(s, cs, entryIndex, j, move))
  {
    hide BestTo, Move, BestOf, Times;
    BestBounds(s, cs, entryIndex, j);
  }

  /** The fraction has reached the threshold: the move has reached as many risks. */
  lemma Armed(best: real, r: real, risks: real, risk: real, entry: real)
    requires entry > 0.0 && r * entry == risk && risk >= 0.0 && Times(best, entry) >= 0.0
    ensures best >= risks * r <==> Times(best, entry) >= Times(risks, risk)
    ensures risks <= 0.0 ==> Times(best, entry) >= Times(risks, risk)
    ensures risks > 0.0 && risk != 0.0 ==> Times(risks, risk) > 0.0
  {
    var need := risks * r;
    assert need * entry == risks * risk;
    ScaledOrder(need, best, entry);
    if risks > 0.0 && risk != 0.0 {
      ProductPositive(risks, risk);
    } else if risks < 0.0 && risk > 0.0 {
      ProductPositive(-risks, risk);
    }
  }

  lemma RFracIs(s: Signal)
    requires s.entry > 0.0
    ensures RFrac(s) * s.entry == RiskIn(s) >= 0.0 && (RFrac(s) != 0.0 <==> RiskIn(s) != 0.0)
  {
    RatioTimes(RiskOf(s), s.entry);
  }

  lemma ScaledOrder(x: real, y: real, w: real)
    requires w > 0.0
    ensures y >= x <==> y * w >= x * w
  {
    if y > x {
      ProductPositive(y - x, w);
    } else if x > y {
      ProductPositive(x - y, w);
    }
  }

  lemma {:induction false} BestPriceBounds(s: Signal, cs: seq<Candle>, entryIndex: nat, j: nat)
    requires j < |cs|
    ensures BestSince(s, cs, entryIndex, j, BestPriceTo(s, cs, entryIndex, j))
  {
    if j > entryIndex {
      BestPriceBounds(s, cs, entryIndex, j - 1);
    }
  }

  lemma BestUnique(s: Signal, cs: seq<Candle>, entryIndex: nat, j: nat, p: real, q: real)
    requires j < |cs| && BestSince(s, cs, entryIndex, j, p) && BestSince(s, cs, entryIndex, j, q)
    ensures p == q
  {
    assert Move(s, p) >= Move(s, q) by {
      assert q == s.entry ==> Move(s, q) == 0.0;
    }
    assert Move(s, q) >= Move(s, p) by {
      assert p == s.entry ==> Move(s, p) == 0.0;
    }
  }

  // ----- levels

  lemma {:induction false} PricesAre(sr: seq<SRLevel>, kind: LevelKind)
    ensures forall p :: p in PricesOfKind(sr, kind)
                        <==> exists k | 0 <= k < |sr| :: sr[k].kind == kind && sr[k].price == p
  {
    if sr != [] {
      var init, last := sr[..|sr| - 1], sr[|sr| - 1];
      PricesAre(init, kind);
      assert sr == init + [last];
      forall p
        ensures p in PricesOfKind(sr, kind) <==> exists k | 0 <= k < |sr| :: sr[k].kind == kind && sr[k].price == p
      {
        if k :| 0 <= k < |sr| && sr[k].kind == kind && sr[k].price == p {
          assert k < |init| ==> init[k].kind == kind && init[k].price == p;
        }
        if k :| 0 <= k < |init| && init[k].kind == kind && init[k].price == p {
          assert sr[k].kind == kind && sr[k].price == p;
        }
        if last.kind == kind && last.price == p {
          assert sr[|sr| - 1].kind == kind;
        }
      }
    }
  }

  function LevelAhead(s: Signal, br: BiasResult, price: real): Option<real> {
    if s.direction == Long then NearestResistance(br, price) else NearestSupport(br, price)
  }

  lemma LevelAheadIs(s: Signal, br: BiasResult, price: real)
    ensures var l := LevelAhead(s, br, price); l.Some? ==> NextLevel(s, br, price, l.value)
    ensures forall level | NextLevel(s, br, price, level) :: LevelAhead(s, br, price) == Some(level)
  {
    var kind := if s.direction == Long then Resistance else Support;
    var ps := PricesOfKind(br.sr, kind);
    PricesAre(br.sr, kind);
    LowestAboveIs(ps, price);
    HighestBelowIs(ps, price);
    forall k | 0 <= k < |br.sr| && br.sr[k].kind == kind ensures br.sr[k].price in ps {
    }
    forall level | NextLevel(s, br, price, level) ensures LevelAhead(s, br, price) == Some(level) {
      assert level in ps;
      var i :| 0 <= i < |ps| && ps[i] == level;
      var l := LevelAhead(s, br, price);
      assert l.Some? && l.value in ps;
    }
  }

  lemma RejectsIs(s: Signal, sr: seq<SrPoint>, before: real, c: Candle)
    ensures Rejects(s, sr, before, c) <==> TurnedBack(s, sr, before, c)
  {
    hide LastBy, NextLevel, NearestResistance, NearestSupport;
    BisectLast(SrTimes(sr), c.closeTime);
    var n := BisectRight(SrTimes(sr), c.closeTime);
    if n > 0 {
      LevelAheadIs(s, sr[n - 1].result, before);
    }
  }

  // ----- the law

  lemma {:induction false} FavourableIs(m: ExitModel, s: Signal, sr: seq<SrPoint>, cs: seq<Candle>,
                                        entryIndex: nat, j: nat)
    requires entryIndex < j < |cs| && s.entry > 0.0
    ensures var f := Favourable(m, s, sr, cs, entryIndex, j);
            && (f.Some? ==> Favours(m, s, sr, cs, entryIndex, j, f.value.px))
            && (forall px | Favours(m, s, sr, cs, entryIndex, j, px) :: f.Some? && f.value.px == px)
  {
    hide ArmedBy, WasAhead, Profitable, Pays, Rejects, TurnedBack, TrailsAt, BestPriceTo, TrailPrice;
    PaysIs(s, cs[j]);
    RejectsIs(s, sr, cs[j - 1].close, cs[j]);
    match m
    case FirstProfit =>
    case FibTarget =>
    case ResistanceRejection =>
    case MinMoveFirstProfit(risks) => AheadIs(s, cs, entryIndex, risks, j);
    case TrailingOnceProfitable(risks, behind) =>
      AheadIs(s, cs, entryIndex, risks, j - 1);
      TrailIs(s, cs, entryIndex, j - 1, behind);
  }

  lemma TrailIs(s: Signal, cs: seq<Candle>, entryIndex: nat, last: nat, behind: real)
    requires entryIndex <= last && last + 1 < |cs|
    ensures var trail := TrailPrice(s, BestPriceTo(s, cs, entryIndex, last), behind);
            && (Reaches(s, cs[last + 1], trail) <==> Move(s, WorstOf(s, cs[last + 1])) <= Move(s, trail))
            && TrailsAt(s, cs, entryIndex, last, behind, trail)
            && forall px | TrailsAt(s, cs, entryIndex, last, behind, px) :: px == trail
  {
    hide BestSince, BestPriceTo, Reaches, TrailPrice, Ahead, Times, Move, WorstOf;
    var best := BestPriceTo(s, cs, entryIndex, last);
    BestPriceBounds(s, cs, entryIndex, last);
    TrailIsBehind(s, best, behind);
    ReachesIs(s, cs[last + 1], TrailPrice(s, best, behind));
    forall px | TrailsAt(s, cs, entryIndex, last, behind, px) ensures px == TrailPrice(s, best, behind) {
      BestUnique(s, cs, entryIndex, last, Ahead(s, px, Times(behind, RiskIn(s))), best);
      AheadUnique(s, px, TrailPrice(s, best, behind), Times(behind, RiskIn(s)));
    }
  }

  lemma TrailIsBehind(s: Signal, best: real, behind: real)
    ensures Ahead(s, TrailPrice(s, best, behind), Times(behind, RiskIn(s))) == best
  {
    assert RiskOf(s) == RiskIn(s);
  }

  lemma ReachesIs(s: Signal, c: Candle, px: real)
    ensures Reaches(s, c, px) <==> Move(s, WorstOf(s, c)) <= Move(s, px)
  {
  }

  lemma AheadUnique(s: Signal, p: real, q: real, distance: real)
    requires Ahead(s, p, distance) == Ahead(s, q, distance)
    ensures p == q
  {
  }

  /** Nothing the model or the brake would act on. */
  ghost predicate Idle(m: ExitModel, s: Signal, bias: seq<BiasPoint>, sr: seq<SrPoint>, cs: seq<Candle>,
                       entryIndex: nat, i: nat)
    requires entryIndex < i < |cs|
  {
    !Braked(s, bias, cs[i]) && forall px :: !Favours(m, s, sr, cs, entryIndex, i, px)
  }

  /** The reason that goes with each model. */
  function ReasonOf(m: ExitModel): HoldReason {
    match m
    case FirstProfit => Reversion
    case MinMoveFirstProfit(_) => MinMoveProfit
    case FibTarget => FibTouch
    case ResistanceRejection => Rejection
    case TrailingOnceProfitable(_, _) => TrailingStop
  }

  lemma FillIs(m: ExitModel, s: Signal, bias: seq<BiasPoint>, sr: seq<SrPoint>, cs: seq<Candle>,
               entryIndex: nat, i: nat)
    requires entryIndex < i < |cs| && s.entry > 0.0
    ensures var f := ExitFill(m, s, bias, sr, cs, entryIndex, i);
            && (f.None? <==> Idle(m, s, bias, sr, cs, entryIndex, i))
            && (f.Some? && f.value.reason != BiasFlip ==>
                  f.value.reason == ReasonOf(m) && Favours(m, s, sr, cs, entryIndex, i, f.value.px))
            && (f.Some? && f.value.reason == BiasFlip ==>
                  && Braked(s, bias, cs[i]) && f.value.px == cs[i].close
                  && forall px :: !Favours(m, s, sr, cs, entryIndex, i, px))
  {
    FavourableIs(m, s, sr, cs, entryIndex, i);
    BrakeIs(s, bias, cs[i]);
    FavourableReason(m, s, sr, cs, entryIndex, i);
    hide Favourable, Favours, Braked, Brake;
  }

  lemma FavourableReason(m: ExitModel, s: Signal, sr: seq<SrPoint>, cs: seq<Candle>, entryIndex: nat, i: nat)
    requires entryIndex < i < |cs|
    ensures var f := Favourable(m, s, sr, cs, entryIndex, i); f.Some? ==> f.value.reason == ReasonOf(m) != BiasFlip
  {
    hide ArmedBy, Profitable, Rejects, TrailPrice, BestPriceTo;
  }

  /** Until the exit there was nothing to act on; a favourable exit is the model's, and the brake's
      exit a close at which the model had none. */
  lemma {:induction false} HoldIs(m: ExitModel, s: Signal, bias: seq<BiasPoint>, sr: seq<SrPoint>, cs: seq<Candle>,
                                  entryIndex: nat, h: Hold)
    requires s.entry > 0.0 && entryIndex < |cs| && IsHold(m, s, bias, sr, cs, entryIndex, h)
    ensures var n := if h.HoldClosed? then h.exitIndex else |cs|;
            && (h.HoldOpen? ==> h.barsHeld == |cs| - 1 - entryIndex)
            && (h.HoldClosed? ==> entryIndex < n < |cs|)
            && forall i | entryIndex < i < n :: Idle(m, s, bias, sr, cs, entryIndex, i)
    ensures h.HoldClosed? && h.reason != BiasFlip ==>
              h.reason == ReasonOf(m) && Favours(m, s, sr, cs, entryIndex, h.exitIndex, h.exitPx)
    ensures h.HoldClosed? && h.reason == BiasFlip ==>
              && Braked(s, bias, cs[h.exitIndex]) && h.exitPx == cs[h.exitIndex].close
              && forall px :: !Favours(m, s, sr, cs, entryIndex, h.exitIndex, px)
  {
    hide ExitFill, Idle, Favours, Braked, WorstTo, MaeR, Gain;
    var n := if h.HoldClosed? then h.exitIndex else |cs|;
    forall i | entryIndex < i < n ensures Idle(m, s, bias, sr, cs, entryIndex, i) {
      FillIs(m, s, bias, sr, cs, entryIndex, i);
    }
    if h.HoldClosed? {
      FillIs(m, s, bias, sr, cs, entryIndex, h.exitIndex);
    }
  }

  /** The result in units of the risk, zero without any; and the excursion, which is the deepest move
      against the trade while it was held, or zero. */
  lemma {:induction false} HoldEarns(m: ExitModel, s: Signal, bias: seq<BiasPoint>, sr: seq<SrPoint>, cs: seq<Candle>,
                                     entryIndex: nat, h: Hold)
    requires s.entry > 0.0 && entryIndex < |cs| && IsHold(m, s, bias, sr, cs, entryIndex, h)
    ensures h.HoldClosed? ==>
              && (RiskIn(s) == 0.0 ==> h.grossR == 0.0 && h.netR == 0.0)
              && (RiskIn(s) != 0.0 ==>
                    && h.grossR * RiskIn(s) == Move(s, h.exitPx)
                    && h.netR * RiskIn(s) == Move(s, h.exitPx) - 0.00075 * (s.entry + h.exitPx))
    ensures (h.maeR.Some? <==> RiskIn(s) != 0.0) && (h.maeR.Some? ==> h.maeR.value * RiskIn(s) == h.maeFrac * s.entry)
    ensures var last := if h.HoldClosed? then h.exitIndex else |cs| - 1;
            && (forall i | entryIndex < i <= last :: h.maeFrac * s.entry <= Move(s, WorstOf(s, cs[i])))
            && (h.maeFrac == 0.0
                || exists i | entryIndex < i <= last :: h.maeFrac * s.entry == Move(s, WorstOf(s, cs[i])))
  {
    ExcursionIsMinimum(m, s, bias, sr, cs, entryIndex, h);
    Booked(m, s, bias, sr, cs, entryIndex, h);
    hide IsHold, AdverseFrac, Move, WorstOf, RiskIn;
    DeepestMove(s, cs, entryIndex, if h.HoldClosed? then h.exitIndex else |cs| - 1, h.maeFrac, h.maeFrac * s.entry);
  }

  /** From fractions of the entry price to moves in price. */
  lemma DeepestMove(s: Signal, cs: seq<Candle>, entryIndex: nat, last: int, frac: real, deepest: real)
    requires s.entry > 0.0 && last < |cs| && deepest == frac * s.entry
    requires forall i | entryIndex < i <= last :: frac <= AdverseFrac(s, cs[i])
    requires frac == 0.0 || exists i | entryIndex < i <= last :: frac == AdverseFrac(s, cs[i])
    ensures forall i | entryIndex < i <= last :: deepest <= Move(s, WorstOf(s, cs[i]))
    ensures frac == 0.0 || exists i | entryIndex < i <= last :: deepest == Move(s, WorstOf(s, cs[i]))
  {
    hide AdverseFrac, Move, WorstOf;
    forall i | entryIndex < i <= last
      ensures deepest <= Move(s, WorstOf(s, cs[i]))
      ensures frac == AdverseFrac(s, cs[i]) ==> deepest == Move(s, WorstOf(s, cs[i]))
    {
      MoveOrder(s, cs[i], frac, deepest);
    }
  }

  lemma MoveOrder(s: Signal, c: Candle, frac: real, deepest: real)
    requires s.entry > 0.0 && deepest == frac * s.entry && frac <= AdverseFrac(s, c)
    ensures deepest <= Move(s, WorstOf(s, c))
    ensures frac == AdverseFrac(s, c) ==> deepest == Move(s, WorstOf(s, c))
  {
    hide AdverseFrac, Move, WorstOf;
    FavorIs(s, c);
    ScaledOrder(frac, AdverseFrac(s, c), s.entry);
  }

  lemma Booked(m: ExitModel, s: Signal, bias: seq<BiasPoint>, sr: seq<SrPoint>, cs: seq<Candle>,
               entryIndex: nat, h: Hold)
    requires entryIndex < |cs| && IsHold(m, s, bias, sr, cs, entryIndex, h)
    ensures h.HoldClosed? ==>
              && (RiskIn(s) == 0.0 ==> h.grossR == 0.0 && h.netR == 0.0)
              && (RiskIn(s) != 0.0 ==>
                    && h.grossR * RiskIn(s) == Move(s, h.exitPx)
                    && h.netR * RiskIn(s) == Move(s, h.exitPx) - 0.00075 * (s.entry + h.exitPx))
    ensures (h.maeR.Some? <==> RiskIn(s) != 0.0) && (h.maeR.Some? ==> h.maeR.value * RiskIn(s) == h.maeFrac * s.entry)
  {
    hide ExitFill, HoldsUntil, WorstTo;
    assert RiskOf(s) == RiskIn(s);
    if RiskIn(s) != 0.0 {
      Quotients(RiskIn(s), if h.HoldClosed? then Gain(s, h.exitPx) else 0.0,
                if h.HoldClosed? then (s.entry + h.exitPx) * TAKER_FEE else 0.0, h.maeFrac * s.entry);
    }
  }

  lemma Quotients(risk: real, gain: real, fee: real, worst: real)
    requires risk != 0.0
    ensures Ratio(gain, risk) * risk == gain && (worst / risk) * risk == worst
    ensures (Ratio(gain, risk) - Ratio(fee, risk)) * risk == gain - fee
  {
    var g, f := gain / risk, fee / risk;
    assert g * risk == gain && f * risk == fee;
    assert (g - f) * risk == g * risk - f * risk;
  }
}
