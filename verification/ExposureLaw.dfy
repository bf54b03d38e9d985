/** scripts/trend_let_winners_run.py: who is admitted, and the exposure of the book, as counts and
    sums over the positions. */
module ExposureLaw {
  import opened Market
  import opened Sums
  import opened Admission

  // ----- admission

  /** One per position that has not exited before the bar. */
  function StillHeld(ps: seq<Position>, bar: int): int -> real {
    k => if 0 <= k < |ps| && bar <= ps[k].exitIndex then 1.0 else 0.0
  }

  lemma {:induction false} HeldIs(ps: seq<Position>, bar: int)
    ensures Held(ps, bar) as real == Sum(StillHeld(ps, bar), 0, |ps|)
  {
    if ps != [] {
      var init := ps[..|ps| - 1];
      HeldIs(init, bar);
      SumSame(StillHeld(init, bar), StillHeld(ps, bar), 0, |init|);
    }
  }

  /** Entry n joins the book exactly when fewer than cap of its positions have not exited before the
      entry bar; in single mode, when none has not. */
  lemma {:induction false} AdmittedIff(entries: seq<Position>, concurrent: bool, cap: int, n: nat)
    requires n < |entries|
    ensures var book, e := Book(entries, concurrent, cap, n), entries[n];
            var held := Sum(StillHeld(book, e.entryIndex), 0, |book|);
            Book(entries, concurrent, cap, n + 1)
            == if (if concurrent then held < cap as real else held == 0.0) then book + [e] else book
  {
    var book := Book(entries, concurrent, cap, n);
    HeldIs(book, entries[n].entryIndex);
    hide Held, Sum, StillHeld;
  }

  /** An earlier position has not exited before this one's entry bar. */
  ghost predicate Meets(ps: seq<Position>, k: int)
    requires k < |ps|
  {
    exists j | 0 <= j < k :: ps[j].exitIndex >= ps[k].entryIndex
  }

  ghost function Meetings(ps: seq<Position>): int -> real {
    k => if 0 <= k < |ps| && Meets(ps, k) then 1.0 else 0.0
  }

  /** The utilisation counts the positions that met an earlier one. */
  lemma {:induction false} JoinedIs(ps: seq<Position>)
    ensures Joined(ps) as real == Sum(Meetings(ps), 0, |ps|)
  {
    hide Held;
    if ps != [] {
      var init, e := ps[..|ps| - 1], ps[|ps| - 1];
      JoinedIs(init);
      forall k | 0 <= k < |init| ensures Meetings(init)(k) == Meetings(ps)(k) {
        if Meets(ps, k) {
          var j :| 0 <= j < k && ps[j].exitIndex >= ps[k].entryIndex;
          assert init[j].exitIndex >= init[k].entryIndex;
        }
        if Meets(init, k) {
          var j :| 0 <= j < k && init[j].exitIndex >= init[k].entryIndex;
          assert ps[j].exitIndex >= ps[k].entryIndex;
        }
      }
      SumSame(Meetings(init), Meetings(ps), 0, |init|);
      LastMeets(ps);
    }
  }

  lemma LastMeets(ps: seq<Position>)
    requires ps != []
    ensures Held(ps[..|ps| - 1], ps[|ps| - 1].entryIndex) > 0 <==> Meets(ps, |ps| - 1)
  {
    hide Held;
    var init, bar := ps[..|ps| - 1], ps[|ps| - 1].entryIndex;
    NoneHeld(init, bar);
    if Meets(ps, |ps| - 1) {
      var j :| 0 <= j < |ps| - 1 && ps[j].exitIndex >= bar;
      assert init[j].exitIndex >= bar;
    } else {
      forall j | 0 <= j < |init| ensures init[j].exitIndex < bar {
        assert ps[j].exitIndex < bar;
      }
    }
  }

  // ----- exposure

  /** The bar's worst price against the entry, for a position entered before the bar and not yet
      closed before it. */
  predicate InMarket(p: Position, bar: int) {
    p.entryIndex < bar && bar <= p.exitIndex
  }

  function Against(p: Position, c: Candle): real {
    if p.isLong then c.low - p.entry else p.entry - c.high
  }

  function Units(x: real, unit: real): real {
    if unit == 0.0 then 0.0 else x / unit
  }

  function One(ps: seq<Position>, bar: int): int -> real {
    k => if 0 <= k < |ps| && InMarket(ps[k], bar) then 1.0 else 0.0
  }

  function InEntries(ps: seq<Position>, bar: int, c: Candle): int -> real {
    k => if 0 <= k < |ps| && InMarket(ps[k], bar) then Units(Against(ps[k], c), ps[k].entry) else 0.0
  }

  function InRisks(ps: seq<Position>, bar: int, c: Candle): int -> real {
    k => if 0 <= k < |ps| && InMarket(ps[k], bar) then Units(Against(ps[k], c), ps[k].risk) else 0.0
  }

  lemma {:induction false} SumsAre(ps: seq<Position>, bar: int, c: Candle)
    ensures OpenCount(ps, bar) as real == Sum(One(ps, bar), 0, |ps|)
    ensures SumFrac(ps, bar, c) == Sum(InEntries(ps, bar, c), 0, |ps|)
    ensures SumR(ps, bar, c) == Sum(InRisks(ps, bar, c), 0, |ps|)
  {
    if ps != [] {
      var init := ps[..|ps| - 1];
      SumsAre(init, bar, c);
      SumSame(One(init, bar), One(ps, bar), 0, |init|);
      SumSame(InEntries(init, bar, c), InEntries(ps, bar, c), 0, |init|);
      SumSame(InRisks(init, bar, c), InRisks(ps, bar, c), 0, |init|);
    }
  }

  /** What the sweep reports: on no bar are more positions in the market, or do they stand further
      below their entries, in fractions of the entry prices or in risks; and some bar has as many, and
      some as deep, unless the figure is zero. */
  lemma ExposureIs(x: Exposure, ps: seq<Position>, cs: seq<Candle>)
    requires Covers(x, ps, cs, -1, |cs|)
    ensures forall t | 0 <= t < |cs| ::
              && Sum(One(ps, t), 0, |ps|) <= x.maxConcurrent as real
              && x.worstFrac <= Sum(InEntries(ps, t, cs[t]), 0, |ps|)
              && x.worstR <= Sum(InRisks(ps, t, cs[t]), 0, |ps|)
    ensures x.maxConcurrent == 0
            || exists t | 0 <= t < |cs| :: Sum(One(ps, t), 0, |ps|) == x.maxConcurrent as real
    ensures x.worstFrac <= 0.0
            && (x.worstFrac == 0.0 || exists t | 0 <= t < |cs| :: Sum(InEntries(ps, t, cs[t]), 0, |ps|) == x.worstFrac)
    ensures x.worstR <= 0.0
            && (x.worstR == 0.0 || exists t | 0 <= t < |cs| :: Sum(InRisks(ps, t, cs[t]), 0, |ps|) == x.worstR)
  {
    hide Sum, One, InEntries, InRisks, OpenCount, SumFrac, SumR;
    forall t | 0 <= t < |cs|
      ensures OpenCount(ps, t) as real == Sum(One(ps, t), 0, |ps|)
      ensures SumFrac(ps, t, cs[t]) == Sum(InEntries(ps, t, cs[t]), 0, |ps|)
      ensures SumR(ps, t, cs[t]) == Sum(InRisks(ps, t, cs[t]), 0, |ps|)
    {
      SumsAre(ps, t, cs[t]);
    }
  }
}
