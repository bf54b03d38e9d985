/** Whole runs of the multi-tranche walk: the shape of every episode and what its blended result
    says about the true one. */
module DcaRuns {
  import opened Market
  import opened Reals
  import opened Sums
  import opened Dca

  // ----- shape

  /** Lowest Fisher value on bars lo..hi. */
  function FisherMin(vs: seq<View>, lo: nat, hi: nat): real
    requires lo <= hi < |vs|
  {
    if lo == hi then vs[lo].fisher else Min(FisherMin(vs, lo, hi - 1), vs[hi].fisher)
  }

  /** The last low event by bar hi: the first tranche's bar, or the latest bar whose low is the
      lowest of its window and lower than at the event before. */
  function LowRef(vs: seq<View>, b0: nat, hi: nat): (ref: nat)
    requires b0 <= hi < |vs|
    ensures b0 <= ref <= hi
  {
    if hi == b0 then b0 else
    var ref := LowRef(vs, b0, hi - 1);
    if vs[hi].windowLow == Some(vs[hi].low) && vs[hi].low < vs[ref].low then hi else ref
  }

  /** Why tranche k was added, in terms of the bars alone: a deeper Fisher level; a new low event
      with a Fisher value less extreme than at the last low event, and a low below the one of the
      tranche before; or a turn up from a Fisher minimum below every value through the tranche
      before. */
  predicate AddedBecause(rules: DcaRules, vs: seq<View>, b0: nat, prev: nat, bar: nat, k: nat)
    requires b0 <= prev < bar < |vs|
  {
    match rules.trigger
    case Deeper => vs[bar].fisher <= -(rules.threshold + 0.5 * k as real)
    case Divergence =>
      var ref := LowRef(vs, b0, bar - 1);
      && vs[bar].windowLow == Some(vs[bar].low) && vs[bar].low < vs[ref].low
      && vs[bar].fisher > vs[ref].fisher
      && vs[bar].low < vs[prev].low
    case Reversal =>
      && FisherMin(vs, b0, bar) < FisherMin(vs, b0, prev)
      && vs[bar].fisher >= FisherMin(vs, b0, bar) + rules.delta
  }

  /** Tranches below bar n: strictly increasing bars, each at its bar's close, opened on a bias
      bar at the threshold, each added for its reason. */
  predicate TranchesOk(rules: DcaRules, vs: seq<View>, ts: seq<Tranche>, n: nat) {
    && ts != []
    && |ts| <= 1 + rules.maxAdds
    && ts[|ts| - 1].bar < n <= |vs|
    && ts[|ts| - 1].px == vs[ts[|ts| - 1].bar].close
    && if |ts| == 1 then vs[ts[0].bar].fisher <= -rules.threshold && vs[ts[0].bar].bias == 1
       else
         var prev := ts[..|ts| - 1];
         && TranchesOk(rules, vs, prev, ts[|ts| - 1].bar)
         && ts[0].bar <= prev[|prev| - 1].bar
         && AddedBecause(rules, vs, ts[0].bar, prev[|prev| - 1].bar, ts[|ts| - 1].bar, |prev|)
  }

  /** What the running references stand for after the bars before n. */
  predicate RefsOk(rules: DcaRules, vs: seq<View>, ep: Episode, n: nat) {
    && ep.tranches != []
    && var first, last := ep.tranches[0].bar, ep.tranches[|ep.tranches| - 1].bar;
       && first <= last < n <= |vs|
       && (rules.trigger == Divergence ==> ep.refLow <= vs[last].low)
       && (rules.trigger == Divergence && |ep.tranches| < 1 + rules.maxAdds ==>
             var ref := LowRef(vs, first, n - 1);
             ep.refLow == vs[ref].low && ep.refLowFisher == vs[ref].fisher)
       && (rules.trigger == Reversal ==> ep.refMin == FisherMin(vs, first, last))
       && (rules.trigger == Reversal && |ep.tranches| < 1 + rules.maxAdds ==> ep.epMin == FisherMin(vs, first, n - 1))
  }

  /** The tranches bought before bar i. */
  function BoughtBefore(ts: seq<Tranche>, i: int): seq<Tranche> {
    if ts == [] || ts[|ts| - 1].bar < i then ts else BoughtBefore(ts[..|ts| - 1], i)
  }

  /** Bar j adds to the position ts held into it. */
  predicate Adds(rules: DcaRules, vs: seq<View>, ts: seq<Tranche>, j: nat) {
    && 1 <= |ts| < 1 + rules.maxAdds
    && ts[0].bar <= ts[|ts| - 1].bar < j < |vs|
    && AddedBecause(rules, vs, ts[0].bar, ts[|ts| - 1].bar, j, |ts|)
  }

  ghost predicate BoughtAt(ts: seq<Tranche>, j: nat) {
    exists k | 0 <= k < |ts| :: ts[k].bar == j
  }

  /** Every bar before bar n that gives a reason to add, to a position not yet full, adds. */
  ghost predicate NoneMissed(rules: DcaRules, vs: seq<View>, ts: seq<Tranche>, n: nat) {
    ts != [] && forall j | ts[0].bar < j < n && Adds(rules, vs, BoughtBefore(ts, j), j) :: BoughtAt(ts, j)
  }

  /** No bar after the first tranche and before bar n met an exit of the position of its time. */
  ghost predicate StayedOpen(vs: seq<View>, ts: seq<Tranche>, n: nat)
    requires n <= |vs|
  {
    ts != [] && forall i | ts[0].bar < i < n :: !ExitsOn(BoughtBefore(ts, i), vs[i])
  }

  /** The worst gain, or zero, at the lows of the bars after the first tranche and before bar n, in
      units of one tranche's notional; */
  function WorstUnits(vs: seq<View>, ts: seq<Tranche>, n: nat): real
    requires ts != [] && n <= |vs|
  {
    if n <= ts[0].bar + 1 then 0.0
    else Min(WorstUnits(vs, ts, n - 1), SumUnits(BoughtBefore(ts, n - 1), vs[n - 1].low))
  }

  /** and per tranche held. */
  function WorstDeployed(vs: seq<View>, ts: seq<Tranche>, n: nat): real
    requires ts != [] && n <= |vs|
  {
    if n <= ts[0].bar + 1 then 0.0
    else
      var held := BoughtBefore(ts, n - 1);
      Min(WorstDeployed(vs, ts, n - 1), Ratio(SumUnits(held, vs[n - 1].low), |held| as real))
  }

  ghost predicate ExcursionOk(vs: seq<View>, ep: Episode, n: nat) {
    && ep.tranches != [] && n <= |vs|
    && ep.maeUnits == WorstUnits(vs, ep.tranches, n)
    && ep.maeDeployed == WorstDeployed(vs, ep.tranches, n)
  }

  ghost predicate EpisodeOk(rules: DcaRules, vs: seq<View>, ep: Episode, n: nat) {
    && TranchesOk(rules, vs, ep.tranches, n)
    && RefsOk(rules, vs, ep, n)
    && NoneMissed(rules, vs, ep.tranches, n)
    && StayedOpen(vs, ep.tranches, n)
    && ExcursionOk(vs, ep, n)
  }

  /** A settled episode: sound tranches, none missed, all before the exit bar, which is the first
      bar to meet an exit, and the exit and excursion it claims. */
  ghost predicate SettledOk(rules: DcaRules, vs: seq<View>, s: Settled, n: nat) {
    && s.exitIndex < n <= |vs|
    && TranchesOk(rules, vs, s.ep.tranches, s.exitIndex)
    && NoneMissed(rules, vs, s.ep.tranches, s.exitIndex)
    && StayedOpen(vs, s.ep.tranches, s.exitIndex)
    && ExcursionOk(vs, s.ep, s.exitIndex + 1)
    && s == Settle(s.ep, s.exitIndex, vs[s.exitIndex].close, s.reason)
    && (s.reason == ByReversion <==> s.net > 0.0)
    && (s.reason == ByFisher ==> vs[s.exitIndex].fisher >= REVERSAL_EXIT_LEVEL)
    && s.reason != StillOpen
  }

  /** A walk that holds nothing opens an episode at this bar. */
  predicate OpensAt(rules: DcaRules, v: View) {
    v.fisher <= -rules.threshold && v.bias == 1
  }

  /** None of the bars from..n-1 opens an episode. */
  ghost predicate Idle(rules: DcaRules, vs: seq<View>, from: nat, n: nat)
    requires n <= |vs|
  {
    forall j | from <= j < n :: !OpensAt(rules, vs[j])
  }

  /** The first bar that may open the next episode: episodes never overlap. */
  function FreeFrom(closed: seq<Settled>): nat {
    if closed == [] then WARMUP_4H else closed[|closed| - 1].exitIndex + 1
  }

  /** The episode opened at the first bar, `from` on, that opens one. */
  ghost predicate OpensFirst(rules: DcaRules, vs: seq<View>, from: nat, ts: seq<Tranche>) {
    ts != [] && from <= ts[0].bar <= |vs| && Idle(rules, vs, from, ts[0].bar)
  }

  ghost predicate ClosedOk(rules: DcaRules, vs: seq<View>, closed: seq<Settled>, n: nat, k: nat)
    requires k < |closed|
  {
    SettledOk(rules, vs, closed[k], n) && OpensFirst(rules, vs, FreeFrom(closed[..k]), closed[k].ep.tranches)
  }

  ghost predicate DcaBookOk(rules: DcaRules, vs: seq<View>, book: DcaBook, n: nat)
    requires n <= |vs|
  {
    && (forall k | 0 <= k < |book.closed| :: ClosedOk(rules, vs, book.closed, n, k))
    && match book.open
       case None => Idle(rules, vs, FreeFrom(book.closed), n)
       case Some(ep) =>
         EpisodeOk(rules, vs, ep, n) && OpensFirst(rules, vs, FreeFrom(book.closed), ep.tranches)
  }

  // ----- one bar of an open episode

  /** What was bought before bar i is not changed by buying at a later bar. */
  lemma BoughtEarlier(ts: seq<Tranche>, t: Tranche, i: int)
    requires i <= t.bar
    ensures BoughtBefore(ts + [t], i) == BoughtBefore(ts, i)
  {
    assert (ts + [t])[..|ts|] == ts;
  }

  lemma StaysOpen(vs: seq<View>, ts: seq<Tranche>, n: nat, bought: bool)
    requires n < |vs| && StayedOpen(vs, ts, n) && ts[|ts| - 1].bar < n && !ExitsOn(ts, vs[n])
    ensures StayedOpen(vs, if bought then ts + [Tranche(n, vs[n].close)] else ts, n + 1)
  {
    hide ExitsOn;
    assert BoughtBefore(ts, n) == ts;
    if bought {
      var t := Tranche(n, vs[n].close);
      forall i | ts[0].bar < i < n + 1 ensures BoughtBefore(ts + [t], i) == BoughtBefore(ts, i) {
        BoughtEarlier(ts, t, i);
      }
    }
  }

  lemma MissesNone(rules: DcaRules, vs: seq<View>, ts: seq<Tranche>, n: nat, bought: bool)
    requires n < |vs| && NoneMissed(rules, vs, ts, n) && ts[|ts| - 1].bar < n
    requires Adds(rules, vs, ts, n) ==> bought
    ensures NoneMissed(rules, vs, if bought then ts + [Tranche(n, vs[n].close)] else ts, n + 1)
  {
    hide Adds;
    var t := Tranche(n, vs[n].close);
    var all := if bought then ts + [t] else ts;
    forall j | ts[0].bar < j < n + 1 && Adds(rules, vs, BoughtBefore(all, j), j) ensures BoughtAt(all, j) {
      BoughtEarlier(ts, t, j);
      if j < n {
        var k :| 0 <= k < |ts| && ts[k].bar == j;
        assert all[k] == ts[k];
      } else {
        assert bought ==> all[|ts|].bar == n;
      }
    }
  }

  lemma {:induction false} SameExcursion(vs: seq<View>, ts: seq<Tranche>, t: Tranche, n: nat)
    requires ts != [] && n <= |vs| && n <= t.bar + 1
    ensures WorstUnits(vs, ts + [t], n) == WorstUnits(vs, ts, n)
    ensures WorstDeployed(vs, ts + [t], n) == WorstDeployed(vs, ts, n)
    decreases n
  {
    hide SumUnits, Ratio, BoughtBefore;
    if n > ts[0].bar + 1 {
      SameExcursion(vs, ts, t, n - 1);
      BoughtEarlier(ts, t, n - 1);
    }
  }

  /** The lows of the bar count before anything is bought or sold at its close. */
  lemma MarkedOk(vs: seq<View>, ep: Episode, i: nat)
    requires i < |vs| && ExcursionOk(vs, ep, i) && ep.tranches[0].bar <= ep.tranches[|ep.tranches| - 1].bar < i
    ensures ExcursionOk(vs, Marked(ep, vs[i]), i + 1)
  {
    hide SumUnits, Ratio;
  }

  lemma FirstOpen(rules: DcaRules, vs: seq<View>, i: nat)
    requires i < |vs|
    ensures var o := OpenEpisode(rules, vs[i], i);
            && (o.Some? <==> OpensAt(rules, vs[i]))
            && (o.Some? ==> EpisodeOk(rules, vs, o.value, i + 1) && o.value.tranches == [Tranche(i, vs[i].close)])
  {
  }

  /** The trigger's running references say exactly what the bars say. */
  lemma CheckIsAdds(rules: DcaRules, vs: seq<View>, ep: Episode, i: nat)
    requires i < |vs| && RefsOk(rules, vs, ep, i) && |ep.tranches| < 1 + rules.maxAdds
    ensures CheckAdd(rules, ep, vs[i]).add <==> Adds(rules, vs, ep.tranches, i)
  {
  }

  lemma TranchesGrow(rules: DcaRules, vs: seq<View>, ts: seq<Tranche>, i: nat, bought: bool)
    requires i < |vs| && TranchesOk(rules, vs, ts, i) && (bought ==> Adds(rules, vs, ts, i))
    ensures TranchesOk(rules, vs, if bought then ts + [Tranche(i, vs[i].close)] else ts, i + 1)
  {
    hide AddedBecause;
    if bought {
      assert (ts + [Tranche(i, vs[i].close)])[..|ts|] == ts;
    }
  }

  lemma RefsMove(rules: DcaRules, vs: seq<View>, ep: Episode, i: nat)
    requires i < |vs| && RefsOk(rules, vs, ep, i)
    ensures RefsOk(rules, vs, MaybeAdd(rules, ep, vs[i], i), i + 1)
  {
  }

  /** The part of the invariant that the bar's decision touches. */
  lemma {:induction false} AddKeeps(rules: DcaRules, vs: seq<View>, ep: Episode, i: nat)
    requires i < |vs| && TranchesOk(rules, vs, ep.tranches, i) && RefsOk(rules, vs, ep, i)
    requires NoneMissed(rules, vs, ep.tranches, i) && StayedOpen(vs, ep.tranches, i)
    requires ExcursionOk(vs, ep, i + 1) && !ExitsOn(ep.tranches, vs[i])
    ensures EpisodeOk(rules, vs, MaybeAdd(rules, ep, vs[i], i), i + 1)
    ensures MaybeAdd(rules, ep, vs[i], i).tranches[0] == ep.tranches[0]
  {
    hide StayedOpen, NoneMissed, ExitsOn, Adds, AddedBecause, WorstUnits, WorstDeployed;
    RefsMove(rules, vs, ep, i);
    var after := MaybeAdd(rules, ep, vs[i], i);
    var bought := |ep.tranches| < 1 + rules.maxAdds && CheckAdd(rules, ep, vs[i]).add;
    if |ep.tranches| < 1 + rules.maxAdds {
      CheckIsAdds(rules, vs, ep, i);
    } else {
      FullAddsNothing(rules, vs, ep.tranches, i);
    }
    hide RefsOk;
    TranchesGrow(rules, vs, ep.tranches, i, bought);
    MissesNone(rules, vs, ep.tranches, i, bought);
    StaysOpen(vs, ep.tranches, i, bought);
    SameExcursion(vs, ep.tranches, Tranche(i, vs[i].close), i + 1);
    assert after.tranches == if bought then ep.tranches + [Tranche(i, vs[i].close)] else ep.tranches;
  }

  lemma FullAddsNothing(rules: DcaRules, vs: seq<View>, ts: seq<Tranche>, i: nat)
    requires |ts| >= 1 + rules.maxAdds
    ensures !Adds(rules, vs, ts, i)
  {
  }

  lemma ClosedLater(rules: DcaRules, vs: seq<View>, closed: seq<Settled>, all: seq<Settled>, n: nat, m: nat)
    requires n <= m <= |vs| && closed <= all
    requires forall k | 0 <= k < |closed| :: ClosedOk(rules, vs, closed, n, k)
    ensures forall k | 0 <= k < |closed| :: ClosedOk(rules, vs, all, m, k)
  {
    hide OpensFirst, TranchesOk, NoneMissed, StayedOpen, ExcursionOk, Settle;
    forall k | 0 <= k < |closed| ensures ClosedOk(rules, vs, all, m, k) {
      assert ClosedOk(rules, vs, closed, n, k);
      assert all[..k] == closed[..k];
    }
  }

  lemma {:induction false} FlatStepOk(rules: DcaRules, vs: seq<View>, i: nat, book: DcaBook)
    requires WARMUP_4H <= i < |vs| && DcaBookOk(rules, vs, book, i) && book.open.None?
    ensures DcaBookOk(rules, vs, DcaStep(rules, vs[i], i, book), i + 1)
  {
    hide ClosedOk, EpisodeOk, OpenEpisode, OpensAt;
    ClosedLater(rules, vs, book.closed, book.closed, i, i + 1);
    FirstOpen(rules, vs, i);
    FreeByNow(rules, vs, book.closed, i);
  }

  lemma FreeByNow(rules: DcaRules, vs: seq<View>, closed: seq<Settled>, n: nat)
    requires WARMUP_4H <= n && forall k | 0 <= k < |closed| :: ClosedOk(rules, vs, closed, n, k)
    ensures FreeFrom(closed) <= n
  {
    if closed != [] {
      assert ClosedOk(rules, vs, closed, n, |closed| - 1);
    }
  }

  lemma {:induction false} OpenStepOk(rules: DcaRules, vs: seq<View>, i: nat, book: DcaBook)
    requires i < |vs| && DcaBookOk(rules, vs, book, i) && book.open.Some?
    ensures DcaBookOk(rules, vs, DcaStep(rules, vs[i], i, book), i + 1)
  {
    hide ClosedOk, OpensFirst, RefsOk, NoneMissed, StayedOpen, ExcursionOk, MaybeAdd, AddedBecause;
    hide BlendedNet, Idle, AvgEntry;
    var ep := book.open.value;
    var marked := Marked(ep, vs[i]);
    StartsEarlier(rules, vs, ep.tranches, i);
    MarkedOk(vs, ep, i);
    SameRefs(rules, vs, ep, vs[i], i);
    hide TranchesOk;
    if ExitsOn(ep.tranches, vs[i]) {
      var s := DcaStep(rules, vs[i], i, book).closed[|book.closed|];
      SettlesOk(rules, vs, marked, i);
      ClosedLater(rules, vs, book.closed, book.closed + [s], i, i + 1);
      LastClosed(rules, vs, book.closed, s, i + 1);
      IdleNow(rules, vs, i + 1);
    } else {
      ClosedLater(rules, vs, book.closed, book.closed, i, i + 1);
      AddKeeps(rules, vs, marked, i);
      SameOpening(rules, vs, FreeFrom(book.closed), ep.tranches, MaybeAdd(rules, marked, vs[i], i).tranches);
    }
  }

  lemma SameRefs(rules: DcaRules, vs: seq<View>, ep: Episode, v: View, i: nat)
    requires RefsOk(rules, vs, ep, i)
    ensures RefsOk(rules, vs, Marked(ep, v), i)
  {
  }

  lemma SameOpening(rules: DcaRules, vs: seq<View>, from: nat, ts: seq<Tranche>, all: seq<Tranche>)
    requires OpensFirst(rules, vs, from, ts) && all != [] && all[0] == ts[0]
    ensures OpensFirst(rules, vs, from, all)
  {
  }

  lemma IdleNow(rules: DcaRules, vs: seq<View>, n: nat)
    requires n <= |vs|
    ensures Idle(rules, vs, n, n)
  {
  }

  lemma LastClosed(rules: DcaRules, vs: seq<View>, closed: seq<Settled>, s: Settled, n: nat)
    requires SettledOk(rules, vs, s, n) && OpensFirst(rules, vs, FreeFrom(closed), s.ep.tranches)
    ensures ClosedOk(rules, vs, closed + [s], n, |closed|)
  {
    hide SettledOk, OpensFirst;
    assert (closed + [s])[..|closed|] == closed;
  }

  lemma SettlesOk(rules: DcaRules, vs: seq<View>, ep: Episode, i: nat)
    requires i < |vs| && TranchesOk(rules, vs, ep.tranches, i) && NoneMissed(rules, vs, ep.tranches, i)
    requires StayedOpen(vs, ep.tranches, i) && ExcursionOk(vs, ep, i + 1) && ExitsOn(ep.tranches, vs[i])
    ensures var reason := if BlendedNet(ep.tranches, vs[i].close) > 0.0 then ByReversion else ByFisher;
            SettledOk(rules, vs, Settle(ep, i, vs[i].close, reason), i + 1)
  {
    hide TranchesOk, NoneMissed, StayedOpen, ExcursionOk, BlendedNet;
  }

  lemma {:induction false} StartsEarlier(rules: DcaRules, vs: seq<View>, ts: seq<Tranche>, n: nat)
    requires TranchesOk(rules, vs, ts, n)
    ensures ts != [] && ts[0].bar <= ts[|ts| - 1].bar < n
  {
    hide AddedBecause;
  }

  /** Every episode of every run opens at the first bar that opens one, has at most 1 + max_adds
      tranches, buys at every bar that gives a reason while it is not full and at no other, exits at
      the first bar that meets an exit, without buying there, and episodes never overlap. */
  lemma {:induction false} EveryEpisode(rules: DcaRules, vs: seq<View>, n: nat)
    requires n <= |vs|
    ensures DcaBookOk(rules, vs, DcaRun(rules, vs, n), n)
  {
    hide DcaStep, ClosedOk, EpisodeOk, OpensFirst;
    if n > WARMUP_4H {
      EveryEpisode(rules, vs, n - 1);
      var book := DcaRun(rules, vs, n - 1);
      if book.open.None? {
        FlatStepOk(rules, vs, n - 1, book);
      } else {
        OpenStepOk(rules, vs, n - 1, book);
      }
    }
  }

  // ----- the rules leave no choice

  /** Bar j belongs to the tranches if and only if it gives a reason to add. */
  lemma {:induction false} BoughtStep(rules: DcaRules, vs: seq<View>, ts: seq<Tranche>, n: nat, j: nat)
    requires TranchesOk(rules, vs, ts, n) && NoneMissed(rules, vs, ts, n) && ts[0].bar < j < n
    ensures var held := BoughtBefore(ts, j);
            BoughtBefore(ts, j + 1) == if Adds(rules, vs, held, j) then held + [Tranche(j, vs[j].close)] else held
    decreases |ts|
  {
    hide AddedBecause;
    StartsEarlier(rules, vs, ts, n);
    var t := ts[|ts| - 1];
    if t.bar < j {
      NothingBoughtLater(rules, vs, ts, n, j);
    } else {
      var prev := ts[..|ts| - 1];
      StartsEarlier(rules, vs, prev, t.bar);
      assert ts == prev + [t];
      if j < t.bar {
        EarlierMissedNone(rules, vs, ts, n);
        BoughtStep(rules, vs, prev, t.bar, j);
      }
    }
  }

  lemma {:induction false} NothingBoughtLater(rules: DcaRules, vs: seq<View>, ts: seq<Tranche>, n: nat, j: nat)
    requires TranchesOk(rules, vs, ts, n) && NoneMissed(rules, vs, ts, n) && ts[|ts| - 1].bar < j < n
    ensures !Adds(rules, vs, ts, j)
  {
    hide AddedBecause;
    StartsEarlier(rules, vs, ts, n);
    assert BoughtBefore(ts, j) == ts;
    if Adds(rules, vs, ts, j) {
      var k :| 0 <= k < |ts| && ts[k].bar == j;
      BarsUpToLast(rules, vs, ts, n, k);
    }
  }

  lemma {:induction false} BarsUpToLast(rules: DcaRules, vs: seq<View>, ts: seq<Tranche>, n: nat, k: nat)
    requires TranchesOk(rules, vs, ts, n) && k < |ts|
    ensures k < |ts| - 1 ==> ts[k].bar < ts[|ts| - 1].bar
    decreases |ts|
  {
    hide AddedBecause;
    if k < |ts| - 1 {
      BarsUpToLast(rules, vs, ts[..|ts| - 1], ts[|ts| - 1].bar, k);
    }
  }

  lemma {:induction false} EarlierMissedNone(rules: DcaRules, vs: seq<View>, ts: seq<Tranche>, n: nat)
    requires TranchesOk(rules, vs, ts, n) && NoneMissed(rules, vs, ts, n) && |ts| > 1
    ensures NoneMissed(rules, vs, ts[..|ts| - 1], ts[|ts| - 1].bar)
  {
    hide Adds;
    var prev, last := ts[..|ts| - 1], ts[|ts| - 1].bar;
    StartsEarlier(rules, vs, ts, n);
    forall j | prev[0].bar < j < last && Adds(rules, vs, BoughtBefore(prev, j), j) ensures BoughtAt(prev, j) {
      assert BoughtBefore(ts, j) == BoughtBefore(prev, j);
      var k :| 0 <= k < |ts| && ts[k].bar == j;
      assert prev[k] == ts[k];
    }
  }

  /** Two positions opened at the same bar hold the same while both are open. */
  lemma {:induction false} SamePosition(rules: DcaRules, vs: seq<View>, x: seq<Tranche>, m: nat,
                                        y: seq<Tranche>, n: nat, j: nat)
    requires TranchesOk(rules, vs, x, m) && NoneMissed(rules, vs, x, m)
    requires TranchesOk(rules, vs, y, n) && NoneMissed(rules, vs, y, n)
    requires x[0].bar == y[0].bar < j && j <= m && j <= n
    ensures BoughtBefore(x, j) == BoughtBefore(y, j)
    decreases j
  {
    StartsEarlier(rules, vs, x, m);
    hide TranchesOk, NoneMissed, Adds, BoughtBefore;
    if j == x[0].bar + 1 {
      FirstBought(rules, vs, x, m);
      FirstBought(rules, vs, y, n);
    } else {
      SamePosition(rules, vs, x, m, y, n, j - 1);
      BoughtStep(rules, vs, x, m, j - 1);
      BoughtStep(rules, vs, y, n, j - 1);
    }
  }

  lemma {:induction false} FirstBought(rules: DcaRules, vs: seq<View>, ts: seq<Tranche>, n: nat)
    requires TranchesOk(rules, vs, ts, n)
    ensures ts != [] && ts[0].bar < |vs|
    ensures BoughtBefore(ts, ts[0].bar + 1) == [Tranche(ts[0].bar, vs[ts[0].bar].close)]
    decreases |ts|
  {
    hide AddedBecause;
    if |ts| > 1 {
      var prev := ts[..|ts| - 1];
      StartsEarlier(rules, vs, prev, ts[|ts| - 1].bar);
      FirstBought(rules, vs, prev, ts[|ts| - 1].bar);
    }
  }

  /** What the caller of the walk is told of an episode: everything but the running references. */
  predicate SameEpisode(x: Episode, y: Episode) {
    x.tranches == y.tranches && x.maeUnits == y.maeUnits && x.maeDeployed == y.maeDeployed
  }

  predicate SameSettled(x: Settled, y: Settled) {
    SameEpisode(x.ep, y.ep) && x == y.(ep := x.ep)
  }

  lemma {:induction false} AllBought(rules: DcaRules, vs: seq<View>, ts: seq<Tranche>, n: nat)
    requires TranchesOk(rules, vs, ts, n)
    ensures BoughtBefore(ts, n) == ts
  {
  }

  /** A position opened with a settled episode meets the exit at the same bar, */
  lemma {:induction false} ExitsThere(rules: DcaRules, vs: seq<View>, s: Settled, m: nat, ts: seq<Tranche>, n: nat)
    requires SettledOk(rules, vs, s, m) && TranchesOk(rules, vs, ts, n) && NoneMissed(rules, vs, ts, n)
    requires s.ep.tranches[0].bar == ts[0].bar && s.exitIndex <= n
    ensures ts[0].bar < s.exitIndex && ExitsOn(BoughtBefore(ts, s.exitIndex), vs[s.exitIndex])
  {
    hide NoneMissed, BlendedNet, AvgEntry, WorstUnits, WorstDeployed, AddedBecause;
    StartsEarlier(rules, vs, s.ep.tranches, s.exitIndex);
    AllBought(rules, vs, s.ep.tranches, s.exitIndex);
    SamePosition(rules, vs, s.ep.tranches, s.exitIndex, ts, n, s.exitIndex);
  }

  /** so it is not held beyond it. */
  lemma {:induction false} NoLonger(rules: DcaRules, vs: seq<View>, s: Settled, m: nat, ts: seq<Tranche>, n: nat)
    requires SettledOk(rules, vs, s, m) && TranchesOk(rules, vs, ts, n) && NoneMissed(rules, vs, ts, n)
    requires s.ep.tranches[0].bar == ts[0].bar
    ensures StayedOpen(vs, ts, n) ==> n <= s.exitIndex
  {
    hide NoneMissed, ExcursionOk, ExitsOn, AddedBecause, BoughtBefore, Settle;
    if s.exitIndex < n {
      ExitsThere(rules, vs, s, m, ts, n);
    }
  }

  lemma {:induction false} SettledUnique(rules: DcaRules, vs: seq<View>, x: Settled, y: Settled, n: nat)
    requires SettledOk(rules, vs, x, n) && SettledOk(rules, vs, y, n)
    requires x.ep.tranches[0].bar == y.ep.tranches[0].bar
    ensures SameSettled(x, y)
  {
    hide TranchesOk, NoneMissed, StayedOpen, BlendedNet, AvgEntry, WorstUnits, WorstDeployed, BoughtBefore;
    NoLonger(rules, vs, x, n, y.ep.tranches, y.exitIndex);
    NoLonger(rules, vs, y, n, x.ep.tranches, x.exitIndex);
    AllBought(rules, vs, x.ep.tranches, x.exitIndex);
    AllBought(rules, vs, y.ep.tranches, y.exitIndex);
    StartsEarlier(rules, vs, x.ep.tranches, x.exitIndex);
    SamePosition(rules, vs, x.ep.tranches, x.exitIndex, y.ep.tranches, y.exitIndex, x.exitIndex);
  }

  lemma {:induction false} OpenUnique(rules: DcaRules, vs: seq<View>, x: Episode, y: Episode, n: nat)
    requires EpisodeOk(rules, vs, x, n) && EpisodeOk(rules, vs, y, n) && x.tranches[0].bar == y.tranches[0].bar
    ensures SameEpisode(x, y)
  {
    hide TranchesOk, NoneMissed, StayedOpen, RefsOk, WorstUnits, WorstDeployed, BoughtBefore;
    AllBought(rules, vs, x.tranches, n);
    AllBought(rules, vs, y.tranches, n);
    StartsEarlier(rules, vs, x.tranches, n);
    SamePosition(rules, vs, x.tranches, n, y.tranches, n, n);
  }

  lemma {:induction false} OneFirstBar(rules: DcaRules, vs: seq<View>, from: nat, x: seq<Tranche>, m: nat,
                                       y: seq<Tranche>, n: nat)
    requires OpensFirst(rules, vs, from, x) && TranchesOk(rules, vs, x, m)
    requires OpensFirst(rules, vs, from, y) && TranchesOk(rules, vs, y, n)
    ensures x[0].bar == y[0].bar
  {
    OpenedThere(rules, vs, x, m);
    OpenedThere(rules, vs, y, n);
    hide TranchesOk, OpensAt;
  }

  lemma {:induction false} OpenedThere(rules: DcaRules, vs: seq<View>, ts: seq<Tranche>, n: nat)
    requires TranchesOk(rules, vs, ts, n)
    ensures ts != [] && ts[0].bar < n <= |vs| && OpensAt(rules, vs[ts[0].bar])
    decreases |ts|
  {
    hide AddedBecause;
    if |ts| > 1 {
      OpenedThere(rules, vs, ts[..|ts| - 1], ts[|ts| - 1].bar);
    }
  }

  /** The settled episodes listed first so far agree in all that is reported. */
  ghost predicate AgreeTo(a: seq<Settled>, b: seq<Settled>, k: nat) {
    k <= |a| && k <= |b| && forall i | 0 <= i < k :: SameSettled(a[i], b[i])
  }

  lemma SameFreeFrom(a: seq<Settled>, b: seq<Settled>, k: nat)
    requires AgreeTo(a, b, k)
    ensures FreeFrom(a[..k]) == FreeFrom(b[..k])
  {
  }

  lemma {:induction false} SameNext(rules: DcaRules, vs: seq<View>, n: nat, a: DcaBook, b: DcaBook, k: nat)
    requires n <= |vs| && DcaBookOk(rules, vs, a, n) && DcaBookOk(rules, vs, b, n)
    requires k < |a.closed| && AgreeTo(a.closed, b.closed, k)
    ensures AgreeTo(a.closed, b.closed, k + 1)
  {
    hide SettledOk, OpensFirst, SameSettled, FreeFrom, TranchesOk, NoneMissed, StayedOpen, RefsOk, ExcursionOk;
    SameFreeFrom(a.closed, b.closed, k);
    var x := a.closed[k];
    assert ClosedOk(rules, vs, a.closed, n, k);
    SettledShape(rules, vs, x, n);
    if k < |b.closed| {
      var y := b.closed[k];
      assert ClosedOk(rules, vs, b.closed, n, k);
      SettledShape(rules, vs, y, n);
      OneFirstBar(rules, vs, FreeFrom(a.closed[..k]), x.ep.tranches, x.exitIndex, y.ep.tranches, y.exitIndex);
      SettledUnique(rules, vs, x, y, n);
    } else {
      assert b.closed[..k] == b.closed;
      match b.open
      case None => OpeningIsNotIdle(rules, vs, FreeFrom(b.closed), n, x.ep.tranches, x.exitIndex);
      case Some(ep) => OutlastsNothing(rules, vs, FreeFrom(b.closed), x, ep.tranches, n);
    }
  }

  lemma SettledShape(rules: DcaRules, vs: seq<View>, s: Settled, n: nat)
    requires SettledOk(rules, vs, s, n)
    ensures s.exitIndex < n <= |vs| && TranchesOk(rules, vs, s.ep.tranches, s.exitIndex)
  {
    hide TranchesOk, NoneMissed, StayedOpen, ExcursionOk, Settle;
  }

  lemma {:induction false} OpeningIsNotIdle(rules: DcaRules, vs: seq<View>, from: nat, n: nat, ts: seq<Tranche>, m: nat)
    requires m <= n <= |vs| && OpensFirst(rules, vs, from, ts) && TranchesOk(rules, vs, ts, m)
    ensures !Idle(rules, vs, from, n)
  {
    OpenedThere(rules, vs, ts, m);
  }

  lemma {:induction false} OutlastsNothing(rules: DcaRules, vs: seq<View>, from: nat, s: Settled,
                                           ts: seq<Tranche>, n: nat)
    requires SettledOk(rules, vs, s, n) && OpensFirst(rules, vs, from, s.ep.tranches)
    requires TranchesOk(rules, vs, ts, n) && NoneMissed(rules, vs, ts, n) && OpensFirst(rules, vs, from, ts)
    ensures !StayedOpen(vs, ts, n)
  {
    hide OpensFirst, ExcursionOk, Settle, NoneMissed, StayedOpen, TranchesOk;
    OneFirstBar(rules, vs, from, s.ep.tranches, s.exitIndex, ts, n);
    NoLonger(rules, vs, s, n, ts, n);
  }

  lemma {:induction false} SameClosed(rules: DcaRules, vs: seq<View>, n: nat, a: DcaBook, b: DcaBook, k: nat)
    requires n <= |vs| && DcaBookOk(rules, vs, a, n) && DcaBookOk(rules, vs, b, n) && k <= |a.closed|
    ensures AgreeTo(a.closed, b.closed, k)
  {
    hide DcaBookOk;
    if k > 0 {
      SameClosed(rules, vs, n, a, b, k - 1);
      SameNext(rules, vs, n, a, b, k - 1);
    }
  }

  /** The rules of EveryEpisode admit one book: any two agree in every settled episode and in the
      open one, in all that is reported. */
  lemma {:induction false} EpisodesUnique(rules: DcaRules, vs: seq<View>, n: nat, a: DcaBook, b: DcaBook)
    requires n <= |vs| && DcaBookOk(rules, vs, a, n) && DcaBookOk(rules, vs, b, n)
    ensures |a.closed| == |b.closed| && AgreeTo(a.closed, b.closed, |a.closed|)
    ensures a.open.Some? <==> b.open.Some?
    ensures a.open.Some? ==> SameEpisode(a.open.value, b.open.value)
  {
    hide ClosedOk, OpensFirst, SameSettled, SameEpisode, FreeFrom, Idle, TranchesOk;
    SameClosed(rules, vs, n, a, b, |a.closed|);
    SameClosed(rules, vs, n, b, a, |b.closed|);
    SameFreeFrom(a.closed, b.closed, |a.closed|);
    assert a.closed[..|a.closed|] == a.closed && b.closed[..|a.closed|] == b.closed;
    var from := FreeFrom(a.closed);
    if a.open.Some? && b.open.Some? {
      OneFirstBar(rules, vs, from, a.open.value.tranches, n, b.open.value.tranches, n);
      OpenUnique(rules, vs, a.open.value, b.open.value, n);
    } else if a.open.Some? {
      OpeningIsNotIdle(rules, vs, from, n, a.open.value.tranches, n);
    } else if b.open.Some? {
      OpeningIsNotIdle(rules, vs, from, n, b.open.value.tranches, n);
    }
  }

  lemma {:induction false} TrancheBarsIncrease(rules: DcaRules, vs: seq<View>, ts: seq<Tranche>, n: nat)
    requires TranchesOk(rules, vs, ts, n)
    ensures forall j, k | 0 <= j < k < |ts| :: ts[j].bar < ts[k].bar
    ensures forall j | 0 <= j < |ts| :: ts[j].bar < n && ts[j].px == vs[ts[j].bar].close
    decreases |ts|
  {
    hide AddedBecause;
    if |ts| > 1 {
      TrancheBarsIncrease(rules, vs, ts[..|ts| - 1], ts[|ts| - 1].bar);
    }
  }

  // ----- blended and true result

  /** Sum of reciprocals. */
  function SumInverse(ts: seq<Tranche>): real {
    if ts == [] then 0.0 else SumInverse(ts[..|ts| - 1]) + Ratio(1.0, ts[|ts| - 1].px)
  }

  ghost predicate PositivePx(ts: seq<Tranche>) {
    forall k | 0 <= k < |ts| :: ts[k].px > 0.0
  }

  lemma InversePositive(p: real) returns (u: real)
    requires p > 0.0
    ensures u == Ratio(1.0, p) > 0.0 && u * p == 1.0
  {
    u := Ratio(1.0, p);
    RatioTimes(1.0, p);
  }

  /** One more price: (S + p)(H + 1/p) is at least (k + 1)^2 when S*H is at least k^2. */
  lemma HarmonicStep(S: real, H: real, p: real, u: real, k: real)
    requires S >= 0.0 && H >= 0.0 && p > 0.0 && u > 0.0 && u * p == 1.0 && k >= 0.0 && S * H >= k * k
    ensures (S + p) * (H + u) >= (k + 1.0) * (k + 1.0)
  {
    var a, b := S * u, H * p;
    assert a >= 0.0 && b >= 0.0;
    assert a * b == (S * H) * (u * p);
    GeometricMean(k, a, b);
    assert (S + p) * (H + u) == S * H + a + b + p * u;
    assert (k + 1.0) * (k + 1.0) == k * k + 2.0 * k + 1.0;
  }

  lemma {:induction false} HarmonicMean(ts: seq<Tranche>)
    requires PositivePx(ts)
    ensures SumPx(ts) >= 0.0 && SumInverse(ts) >= 0.0 && (ts != [] ==> SumPx(ts) > 0.0)
    ensures SumPx(ts) * SumInverse(ts) >= |ts| as real * |ts| as real
  {
    hide Ratio;
    if ts != [] {
      var n := |ts| - 1;
      HarmonicMean(ts[..n]);
      var u := InversePositive(ts[n].px);
      HarmonicStep(SumPx(ts[..n]), SumInverse(ts[..n]), ts[n].px, u, n as real);
    }
  }

  lemma {:induction false} UnitsAre(ts: seq<Tranche>, px: real)
    requires PositivePx(ts)
    ensures SumUnits(ts, px) == px * SumInverse(ts) - |ts| as real
  {
    if ts != [] {
      var n := |ts| - 1;
      UnitsAre(ts[..n], px);
    }
  }

  /** The blended return never exceeds the true return of equal-notional tranches: the arithmetic
      mean of the entry prices is at least their harmonic mean. */
  lemma BlendedUnderstates(ts: seq<Tranche>, px: real)
    requires ts != [] && PositivePx(ts) && px >= 0.0
    ensures |ts| as real * BlendedNet(ts, px) <= SumUnits(ts, px) - |ts| as real * (2.0 * TAKER_FEE)
  {
    hide Ratio, SumPx, SumUnits, SumInverse;
    HarmonicMean(ts);
    UnitsAre(ts, px);
    BlendedBound(SumPx(ts), SumInverse(ts), |ts| as real, px);
  }

  lemma BlendedBound(S: real, H: real, k: real, px: real)
    requires S > 0.0 && k > 0.0 && S * H >= k * k && px >= 0.0
    ensures k * Ratio(px, Ratio(S, k)) <= px * H
  {
    var avg := S / k;
    assert avg * k == S;
    var q := px / avg;
    assert q * avg == px;
    assert (k * q) * S == (q * avg) * (k * k) by {
      assert S == avg * k;
    }
    assert px * (S * H - k * k) >= 0.0;
    assert (px * H) * S == px * (S * H);
    DivideOrder(k * q, px * H, S);
  }

  /** Every reversion exit of every run is profitable for equal-notional tranches after the same
      round-trip fees. */
  lemma ReversionIsProfitable(rules: DcaRules, vs: seq<View>, n: nat, j: nat)
    requires n <= |vs| && forall i | 0 <= i < |vs| :: vs[i].close > 0.0
    requires j < |DcaRun(rules, vs, n).closed|
    ensures var s := DcaRun(rules, vs, n).closed[j];
            && s.pnlUnits <= SumUnits(s.ep.tranches, s.exitPx) - |s.ep.tranches| as real * (2.0 * TAKER_FEE)
            && (s.reason == ByReversion ==>
                  SumUnits(s.ep.tranches, s.exitPx) > |s.ep.tranches| as real * (2.0 * TAKER_FEE))
  {
    hide DcaRun, SumUnits, BlendedNet, AvgEntry, TranchesOk, StayedOpen, LowRef;
    EveryEpisode(rules, vs, n);
    var s := DcaRun(rules, vs, n).closed[j];
    assert ClosedOk(rules, vs, DcaRun(rules, vs, n).closed, n, j);
    var ts := s.ep.tranches;
    TrancheBarsIncrease(rules, vs, ts, s.exitIndex);
    SomeTranche(rules, vs, ts, s.exitIndex);
    BlendedUnderstates(ts, s.exitPx);
    if s.reason == ByReversion {
      ProductPositive(|ts| as real, s.net);
    }
  }

  lemma SomeTranche(rules: DcaRules, vs: seq<View>, ts: seq<Tranche>, n: nat)
    requires TranchesOk(rules, vs, ts, n)
    ensures 1 <= |ts| <= 1 + rules.maxAdds
  {
  }
}
