/** guardian.py: the kill and the soft halt in terms of the events and of the floors as numbers. */
module GuardianLaw {
  import opened Market
  import opened Sizing
  import opened SizingLaw
  import opened Guardian

  /** The day-start figure before event n: the latest one given. */
  function DayStartBy(start: real, es: seq<Event>, n: nat): real
    requires n <= |es|
  {
    if n == 0 then start else if es[n - 1].DayStarted? then es[n - 1].equity else DayStartBy(start, es, n - 1)
  }

  /** The high-water mark before event n: the latest one stored, or what was observed above it since. */
  function MarkBy(start: Option<real>, es: seq<Event>, n: nat): Option<real>
    requires n <= |es|
  {
    if n == 0 then start else
    var before := MarkBy(start, es, n - 1);
    match es[n - 1]
    case Persisted(hwm) => Some(hwm)
    case Observed(equity) => if before.Some? && before.value >= equity then before else Some(equity)
    case _ => before
  }

  lemma {:induction false} FiguresAre(cfg: ChallengeConfig, s: State, es: seq<Event>, n: nat)
    requires n <= |es|
    ensures StateAt(cfg, s, es, n).dayStart == DayStartBy(s.dayStart, es, n)
    ensures StateAt(cfg, s, es, n).hwm == MarkBy(s.hwm, es, n)
  {
    hide BindingFloor;
    if n > 0 {
      FiguresAre(cfg, s, es, n - 1);
    }
  }

  /** Event i reports an equity at most this much above the binding floor of its moment. */
  ghost predicate Under(cfg: ChallengeConfig, s: State, es: seq<Event>, i: nat, usd: real)
    requires i < |es|
  {
    && es[i].Equity?
    && exists base, floor | CountedFrom(cfg, MarkBy(s.hwm, es, i), base)
                            && FloorIs(cfg, DayStartBy(s.dayStart, es, i), base, floor) :: es[i].equity - floor <= usd
  }

  lemma UnderIs(cfg: ChallengeConfig, s: State, es: seq<Event>, i: nat, usd: real)
    requires i < |es|
    ensures Under(cfg, s, es, i, usd) <==> es[i].Equity? && es[i].equity - FloorAt(cfg, s, es, i) <= usd
  {
    FiguresAre(cfg, s, es, i);
    var base := BindingFloorIs(cfg, DayStartBy(s.dayStart, es, i), MarkBy(s.hwm, es, i));
    hide BindingFloor, CountedFrom, MarkBy, DayStartBy, StateAt;
    var floor := FloorAt(cfg, s, es, i);
    assert FloorIs(cfg, DayStartBy(s.dayStart, es, i), base, floor);
    forall other | FloorIs(cfg, DayStartBy(s.dayStart, es, i), base, other) ensures other == floor {
    }
  }

  lemma BreachIs(cfg: ChallengeConfig, s: State, es: seq<Event>, i: nat)
    requires i < |es|
    ensures Breach(cfg, s, es, i) <==> Under(cfg, s, es, i, 200.0)
    ensures Near(cfg, s, es, i) <==> Under(cfg, s, es, i, 500.0)
  {
    UnderIs(cfg, s, es, i, 200.0);
    UnderIs(cfg, s, es, i, 500.0);
    hide FloorAt, Under;
  }

  /** No event before n was within 200 dollars. */
  ghost predicate NoneUnder(cfg: ChallengeConfig, s: State, es: seq<Event>, n: nat)
    requires n <= |es|
  {
    forall j | 0 <= j < n :: !Under(cfg, s, es, j, 200.0)
  }

  lemma NoneUnderIs(cfg: ChallengeConfig, s: State, es: seq<Event>, n: nat)
    requires n <= |es|
    ensures NoBreach(cfg, s, es, n) <==> NoneUnder(cfg, s, es, n)
  {
    hide Under, Breach, Near;
    forall j | 0 <= j < n ensures Breach(cfg, s, es, j) <==> Under(cfg, s, es, j, 200.0) {
      BreachIs(cfg, s, es, j);
    }
  }

  /** A guardian that has just started kills at the first equity within 200 dollars of the floor, and
      only there; the engine is then KILLED. */
  lemma KillIs(cfg: ChallengeConfig, s: State, es: seq<Event>, i: nat)
    requires i < |es| && Fresh(s)
    ensures ActionAt(cfg, s, es, i) == HardFlatten
            <==> Under(cfg, s, es, i, 200.0) && NoneUnder(cfg, s, es, i)
    ensures ActionAt(cfg, s, es, i) == HardFlatten ==> StateAt(cfg, s, es, i + 1).engine == Killed
  {
    KillAtFirstBreach(cfg, s, es, i);
    BreachIs(cfg, s, es, i);
    NoneUnderIs(cfg, s, es, i);
    hide ActionAt, StateAt, Breach, NoBreach, Near, Under, NoneUnder;
  }

  /** Some event before n, on this date, was within 500 dollars. */
  ghost predicate UnderOn(cfg: ChallengeConfig, s: State, es: seq<Event>, n: nat, today: int)
    requires n <= |es|
  {
    exists j | 0 <= j < n :: Under(cfg, s, es, j, 500.0) && es[j].today == today
  }

  lemma UnderOnIs(cfg: ChallengeConfig, s: State, es: seq<Event>, n: nat, today: int)
    requires n <= |es|
    ensures NearedOn(cfg, s, es, n, today) <==> UnderOn(cfg, s, es, n, today)
  {
    forall j | 0 <= j < n ensures Near(cfg, s, es, j) <==> Under(cfg, s, es, j, 500.0) {
      BreachIs(cfg, s, es, j);
    }
    hide Near, Breach, Under;
  }

  /** It halts softly at the first equity of a date within 500 dollars of the floor, while none has been
      within 200, and only there; an active engine is then PAUSED and any other left alone. */
  lemma {:induction false} SoftHaltIs(cfg: ChallengeConfig, s: State, es: seq<Event>, i: nat)
    requires i < |es| && Fresh(s) && DatesNeverGoBack(es)
    ensures ActionAt(cfg, s, es, i) == SoftHalt <==>
              && Under(cfg, s, es, i, 500.0) && NoneUnder(cfg, s, es, i + 1)
              && !UnderOn(cfg, s, es, i, es[i].today)
    ensures ActionAt(cfg, s, es, i) == SoftHalt ==>
              StateAt(cfg, s, es, i + 1).engine
              == if StateAt(cfg, s, es, i).engine == Active then Paused else StateAt(cfg, s, es, i).engine
  {
    SoftHaltExactly(cfg, s, es, i);
    BreachIs(cfg, s, es, i);
    NoneUnderIs(cfg, s, es, i + 1);
    hide Breach, NoBreach, Near, NearedOn, Under, NoneUnder, UnderOn, BindingFloor, DatesNeverGoBack;
    if Under(cfg, s, es, i, 500.0) {
      UnderIs(cfg, s, es, i, 500.0);
      UnderOnIs(cfg, s, es, i, es[i].today);
    }
  }
}
