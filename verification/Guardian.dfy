/** guardian.py: the independent watcher of the equity stream. Each step is atomic and the kill
    call returns; the engine state is shared with the operator's control plane. */
module Guardian {
  import opened Market
  import opened Sizing

  const SOFT_BUFFER_USD: real := 500.0
  const HARD_BUFFER_USD: real := 200.0

  datatype EngineState = Active | Paused | Killed

  datatype Action = NoAction | SoftHalt | HardFlatten

  /** The guardian's fields and the engine state they are checked against. */
  datatype State = State(softHalted: bool, flattened: bool, day: Option<int>, hwm: Option<real>,
                         dayStart: real, engine: EngineState)

  function Floor(cfg: ChallengeConfig, s: State): real {
    BindingFloor(cfg, s.dayStart, s.hwm)
  }

  /** Soft-halts re-arm on a later date unless the account was flattened. */
  function Rolled(s: State, today: int): State {
    if s.day.None? then s.(day := Some(today))
    else if today > s.day.value then s.(day := Some(today), softHalted := s.flattened)
    else s
  }

  function Ratcheted(s: State, equity: real): State {
    if s.hwm.None? || equity > s.hwm.value then s.(hwm := Some(equity)) else s
  }

  /** on_equity: the hard check first. */
  function OnEquityAction(cfg: ChallengeConfig, s: State, equity: real, today: int): Action {
    var s := Rolled(s, today);
    if !s.flattened && equity <= Floor(cfg, s) + HARD_BUFFER_USD then HardFlatten
    else if !s.softHalted && equity <= Floor(cfg, s) + SOFT_BUFFER_USD then SoftHalt
    else NoAction
  }

  function AfterEquity(cfg: ChallengeConfig, s: State, equity: real, today: int): State {
    var rolled := Rolled(s, today);
    match OnEquityAction(cfg, s, equity, today)
    case HardFlatten => rolled.(flattened := true, softHalted := true, engine := Killed)
    case SoftHalt => rolled.(softHalted := true, engine := if s.engine == Active then Paused else s.engine)
    case NoAction => rolled
  }

  /** The store and the execution service the guardian is given. */
  class Desk {
    var engine: EngineState
    var kills: nat

    constructor ()
      ensures engine == Active && kills == 0
    {
      engine, kills := Active, 0;
    }

    method KillSequence()
      modifies this`kills
      ensures kills == old(kills) + 1
    {
      kills := kills + 1;
    }

    method SetEngineState(s: EngineState)
      modifies this`engine
      ensures engine == s
    {
      engine := s;
    }
  }

  class Watcher {
    const cfg: ChallengeConfig
    const desk: Desk
    var dayStart: real
    var softHalted: bool
    var flattened: bool
    var currentDay: Option<int>
    var hwm: Option<real>

    constructor (cfg: ChallengeConfig, desk: Desk, dayStart: real, hwm: Option<real>)
      ensures this.cfg == cfg && this.desk == desk
      ensures Now() == State(false, false, None, hwm, dayStart, desk.engine)
    {
      this.cfg, this.desk, this.dayStart, this.hwm := cfg, desk, dayStart, hwm;
      softHalted, flattened, currentDay := false, false, None;
    }

    function Now(): State
      reads this, desk
    {
      State(softHalted, flattened, currentDay, hwm, dayStart, desk.engine)
    }

    method MaybeRollover(today: int)
      modifies this
      ensures Now() == Rolled(old(Now()), today)
    {
      if currentDay.None? {
        currentDay := Some(today);
        return;
      }
      if today > currentDay.value {
        currentDay := Some(today);
        softHalted := flattened;
      }
    }

    method ObserveHwm(equity: real)
      modifies this
      ensures Now() == Next(cfg, old(Now()), Observed(equity))
    {
      if hwm.None? || equity > hwm.value {
        hwm := Some(equity);
      }
    }

    method SetDayStart(equity: real)
      modifies this
      ensures Now() == Next(cfg, old(Now()), DayStarted(equity))
    {
      dayStart := equity;
    }

    method OnEquity(equity: real, today: int) returns (action: Action)
      modifies this, desk
      ensures action == ActionOf(cfg, old(Now()), Equity(equity, today))
      ensures Now() == Next(cfg, old(Now()), Equity(equity, today))
      ensures desk.kills == old(desk.kills) + if action == HardFlatten then 1 else 0
    {
      MaybeRollover(today);
      var floor := BindingFloor(cfg, dayStart, hwm);
      if !flattened && equity <= floor + HARD_BUFFER_USD {
        desk.KillSequence();
        desk.SetEngineState(Killed);
        flattened := true;
        softHalted := true;
        return HardFlatten;
      }
      if !softHalted && equity <= floor + SOFT_BUFFER_USD {
        if desk.engine == Active {
          desk.SetEngineState(Paused);
        }
        softHalted := true;
        return SoftHalt;
      }
      action := NoAction;
    }

    /** A whole stream: equity events, marks, day starts and the operator's commands. */
    method Watch(es: seq<Event>) returns (actions: seq<Action>)
      modifies this, desk
      ensures Now() == StateAt(cfg, old(Now()), es, |es|)
      ensures |actions| == |es| && forall i | 0 <= i < |es| :: actions[i] == ActionAt(cfg, old(Now()), es, i)
      ensures desk.kills == old(desk.kills) + Kills(actions)
    {
      hide OnEquityAction, AfterEquity, Ratcheted;
      actions := [];
      for i := 0 to |es|
        invariant Now() == StateAt(cfg, old(Now()), es, i)
        invariant |actions| == i && forall j | 0 <= j < i :: actions[j] == ActionAt(cfg, old(Now()), es, j)
        invariant desk.kills == old(desk.kills) + Kills(actions)
      {
        var action := NoAction;
        match es[i] {
          case Equity(equity, today) => action := OnEquity(equity, today);
          case Observed(equity) => ObserveHwm(equity);
          case Persisted(mark) => hwm := Some(mark);
          case DayStarted(equity) => SetDayStart(equity);
          case Operator(state) => desk.SetEngineState(state);
        }
        assert (actions + [action])[..i] == actions;
        actions := actions + [action];
      }
    }
  }

  /** How many of the actions ran the kill sequence. */
  function Kills(actions: seq<Action>): nat {
    if actions == [] then 0 else
    Kills(actions[..|actions| - 1]) + if actions[|actions| - 1] == HardFlatten then 1 else 0
  }

  // ----- streams of events

  /** Everything that can touch the state: an equity event, the ratchet, the mark returned by the
      store when telemetry is written, a new day-start figure, an operator's command. */
  datatype Event =
    | Equity(equity: real, today: int)
    | Observed(equity: real)
    | Persisted(hwm: real)
    | DayStarted(equity: real)
    | Operator(state: EngineState)

  function ActionOf(cfg: ChallengeConfig, s: State, e: Event): Action {
    if e.Equity? then OnEquityAction(cfg, s, e.equity, e.today) else NoAction
  }

  function Next(cfg: ChallengeConfig, s: State, e: Event): State {
    match e
    case Equity(equity, today) => AfterEquity(cfg, s, equity, today)
    case Observed(equity) => Ratcheted(s, equity)
    case Persisted(hwm) => s.(hwm := Some(hwm))
    case DayStarted(equity) => s.(dayStart := equity)
    case Operator(state) => s.(engine := state)
  }

  function StateAt(cfg: ChallengeConfig, s: State, es: seq<Event>, n: nat): State
    requires n <= |es|
  {
    if n == 0 then s else Next(cfg, StateAt(cfg, s, es, n - 1), es[n - 1])
  }

  function ActionAt(cfg: ChallengeConfig, s: State, es: seq<Event>, i: nat): Action
    requires i < |es|
  {
    ActionOf(cfg, StateAt(cfg, s, es, i), es[i])
  }

  /** A guardian that has just started. */
  predicate Fresh(s: State) {
    !s.softHalted && !s.flattened && s.day.None?
  }

  /** The floor seen by event i: it depends on marks and day starts only. */
  function FloorAt(cfg: ChallengeConfig, s: State, es: seq<Event>, i: nat): real
    requires i <= |es|
  {
    Floor(cfg, StateAt(cfg, s, es, i))
  }

  predicate Breach(cfg: ChallengeConfig, s: State, es: seq<Event>, i: nat)
    requires i < |es|
  {
    es[i].Equity? && es[i].equity <= FloorAt(cfg, s, es, i) + HARD_BUFFER_USD
  }

  predicate Near(cfg: ChallengeConfig, s: State, es: seq<Event>, i: nat)
    requires i < |es|
  {
    es[i].Equity? && es[i].equity <= FloorAt(cfg, s, es, i) + SOFT_BUFFER_USD
  }

  predicate NoBreach(cfg: ChallengeConfig, s: State, es: seq<Event>, n: nat)
    requires n <= |es|
  {
    forall j | 0 <= j < n :: !Breach(cfg, s, es, j)
  }

  lemma SameFloor(cfg: ChallengeConfig, s: State, today: int)
    ensures Floor(cfg, Rolled(s, today)) == Floor(cfg, s)
    ensures Rolled(s, today).flattened == s.flattened
  {
  }

  /** The flag records exactly that some event breached. */
  lemma {:induction false} FlattenedIffBreached(cfg: ChallengeConfig, s: State, es: seq<Event>, n: nat)
    requires n <= |es| && Fresh(s)
    ensures StateAt(cfg, s, es, n).flattened <==> !NoBreach(cfg, s, es, n)
  {
    hide BindingFloor;
    if n > 0 {
      FlattenedIffBreached(cfg, s, es, n - 1);
      var t := StateAt(cfg, s, es, n - 1);
      if es[n - 1].Equity? {
        SameFloor(cfg, t, es[n - 1].today);
        assert Breach(cfg, s, es, n - 1) <==> es[n - 1].equity <= Floor(cfg, t) + HARD_BUFFER_USD;
      }
    }
  }

  /** The kill sequence runs exactly at the first event with equity <= floor + 200, so at most
      once in any stream. */
  lemma {:induction false} KillAtFirstBreach(cfg: ChallengeConfig, s: State, es: seq<Event>, i: nat)
    requires i < |es| && Fresh(s)
    ensures ActionAt(cfg, s, es, i) == HardFlatten <==> Breach(cfg, s, es, i) && NoBreach(cfg, s, es, i)
    ensures ActionAt(cfg, s, es, i) == HardFlatten ==> StateAt(cfg, s, es, i + 1).engine == Killed
  {
    hide BindingFloor;
    FlattenedIffBreached(cfg, s, es, i);
    if es[i].Equity? {
      SameFloor(cfg, StateAt(cfg, s, es, i), es[i].today);
    }
  }

  lemma KillAtMostOnce(cfg: ChallengeConfig, s: State, es: seq<Event>, i: nat, j: nat)
    requires i < |es| && j < |es| && Fresh(s)
    requires ActionAt(cfg, s, es, i) == HardFlatten && ActionAt(cfg, s, es, j) == HardFlatten
    ensures i == j
  {
    KillAtFirstBreach(cfg, s, es, i);
    KillAtFirstBreach(cfg, s, es, j);
    hide Breach, ActionAt;
  }

  /** A whole stream runs the kill sequence once if it breaches, and otherwise never. */
  lemma {:induction false} KillsIffBreached(cfg: ChallengeConfig, s: State, es: seq<Event>, actions: seq<Action>)
    requires |actions| <= |es| && Fresh(s)
    requires forall i | 0 <= i < |actions| :: actions[i] == ActionAt(cfg, s, es, i)
    ensures Kills(actions) == if NoBreach(cfg, s, es, |actions|) then 0 else 1
  {
    hide ActionAt, Breach;
    if actions != [] {
      var n := |actions| - 1;
      KillsIffBreached(cfg, s, es, actions[..n]);
      KillAtFirstBreach(cfg, s, es, n);
    }
  }

  // ----- soft halts

  ghost predicate DatesNeverGoBack(es: seq<Event>) {
    forall i, j | 0 <= i < j < |es| && es[i].Equity? && es[j].Equity? :: es[i].today <= es[j].today
  }

  /** An earlier event on this date was within the soft buffer. */
  ghost predicate NearedOn(cfg: ChallengeConfig, s: State, es: seq<Event>, n: nat, today: int)
    requires n <= |es|
  {
    exists j | 0 <= j < n :: Near(cfg, s, es, j) && es[j].today == today
  }

  /** The stored date is that of the last equity event. */
  lemma {:induction false} DayIsLatest(cfg: ChallengeConfig, s: State, es: seq<Event>, n: nat)
    requires n <= |es| && Fresh(s) && DatesNeverGoBack(es)
    ensures var day := StateAt(cfg, s, es, n).day;
            && (day.None? ==> forall j | 0 <= j < n :: !es[j].Equity?)
            && (day.Some? ==> (exists j | 0 <= j < n :: es[j].Equity? && es[j].today == day.value)
                              && forall j | 0 <= j < n && es[j].Equity? :: es[j].today <= day.value)
  {
    hide BindingFloor, OnEquityAction;
    if n > 0 {
      DayIsLatest(cfg, s, es, n - 1);
    }
  }

  /** The soft flag, before event n: flattened, or some event of the stored date was near. */
  lemma {:induction false} SoftIffNeared(cfg: ChallengeConfig, s: State, es: seq<Event>, n: nat)
    requires n <= |es| && Fresh(s) && DatesNeverGoBack(es)
    ensures var t := StateAt(cfg, s, es, n);
            t.softHalted <==> t.flattened || (t.day.Some? && NearedOn(cfg, s, es, n, t.day.value))
  {
    hide NearedOn, DatesNeverGoBack;
    if n > 0 {
      SoftIffNeared(cfg, s, es, n - 1);
      var t := StateAt(cfg, s, es, n - 1);
      if es[n - 1].Equity? {
        RolledSoft(cfg, s, es, n - 1);
        NearedGrows(cfg, s, es, n - 1, es[n - 1].today);
      } else if t.day.Some? {
        NearedGrows(cfg, s, es, n - 1, t.day.value);
      }
    }
  }

  lemma {:induction false} NearedGrows(cfg: ChallengeConfig, s: State, es: seq<Event>, i: nat, today: int)
    requires i < |es|
    ensures NearedOn(cfg, s, es, i + 1, today)
            <==> NearedOn(cfg, s, es, i, today) || (Near(cfg, s, es, i) && es[i].today == today)
  {
    hide Near;
  }

  /** After the rollover of event i the flag speaks of that event's own date. */
  lemma {:induction false} RolledSoft(cfg: ChallengeConfig, s: State, es: seq<Event>, i: nat)
    requires i < |es| && es[i].Equity? && Fresh(s) && DatesNeverGoBack(es)
    requires var t := StateAt(cfg, s, es, i);
             t.softHalted <==> t.flattened || (t.day.Some? && NearedOn(cfg, s, es, i, t.day.value))
    ensures var r := Rolled(StateAt(cfg, s, es, i), es[i].today);
            && r.day == Some(es[i].today)
            && (r.softHalted <==> r.flattened || NearedOn(cfg, s, es, i, es[i].today))
  {
    hide FloorAt;
    DayIsLatest(cfg, s, es, i);
  }

  /** A soft halt happens exactly at an event near the floor, not breaching it, with no breach
      before and no earlier near event on its date; so at most once a date, never after a flatten. */
  lemma {:induction false} SoftHaltExactly(cfg: ChallengeConfig, s: State, es: seq<Event>, i: nat)
    requires i < |es| && Fresh(s) && DatesNeverGoBack(es)
    ensures ActionAt(cfg, s, es, i) == SoftHalt <==>
              && Near(cfg, s, es, i)
              && NoBreach(cfg, s, es, i + 1)
              && !NearedOn(cfg, s, es, i, es[i].today)
  {
    hide NearedOn, BindingFloor;
    if es[i].Equity? {
      SoftIffNeared(cfg, s, es, i);
      RolledSoft(cfg, s, es, i);
      FlattenedIffBreached(cfg, s, es, i);
      BreachNext(cfg, s, es, i);
      SameFloor(cfg, StateAt(cfg, s, es, i), es[i].today);
    }
  }

  lemma BreachNext(cfg: ChallengeConfig, s: State, es: seq<Event>, i: nat)
    requires i < |es|
    ensures NoBreach(cfg, s, es, i + 1) <==> NoBreach(cfg, s, es, i) && !Breach(cfg, s, es, i)
  {
    hide Breach;
  }

  lemma {:induction false} SoftHaltOncePerDate(cfg: ChallengeConfig, s: State, es: seq<Event>, i: nat, j: nat)
    requires i < j < |es| && Fresh(s) && DatesNeverGoBack(es)
    requires ActionAt(cfg, s, es, j) == SoftHalt
    ensures ActionAt(cfg, s, es, i) != HardFlatten
    ensures ActionAt(cfg, s, es, i) == SoftHalt ==> es[i].today < es[j].today
  {
    hide Near, Breach, ActionAt;
    SoftHaltExactly(cfg, s, es, j);
    SoftHaltExactly(cfg, s, es, i);
    KillAtFirstBreach(cfg, s, es, i);
    if ActionAt(cfg, s, es, i) == SoftHalt {
      assert Near(cfg, s, es, i);
      NearIsEquity(cfg, s, es, i);
      NearIsEquity(cfg, s, es, j);
    }
  }

  lemma NearIsEquity(cfg: ChallengeConfig, s: State, es: seq<Event>, i: nat)
    requires i < |es| && Near(cfg, s, es, i)
    ensures es[i].Equity?
  {
  }

  // ----- the engine state

  /** Only an operator's command takes the engine out of KILLED, and only a soft halt of an active
      engine or a flatten lets the guardian write it at all. */
  lemma GuardianNeverUnkills(cfg: ChallengeConfig, s: State, e: Event)
    requires !e.Operator?
    ensures s.engine == Killed ==> Next(cfg, s, e).engine == Killed
    ensures Next(cfg, s, e).engine != s.engine ==>
              || (ActionOf(cfg, s, e) == HardFlatten && Next(cfg, s, e).engine == Killed)
              || (ActionOf(cfg, s, e) == SoftHalt && s.engine == Active && Next(cfg, s, e).engine == Paused)
  {
  }

  /** The operator's last command among events lo..hi-1. */
  function LastCommand(es: seq<Event>, lo: nat, hi: nat): Option<EngineState>
    requires hi <= |es|
  {
    if hi <= lo then None
    else if es[hi - 1].Operator? then Some(es[hi - 1].state) else LastCommand(es, lo, hi - 1)
  }

  /** After the flatten the guardian is done: both flags stay set, and the engine state is the
      operator's last command since, KILLED if there was none. */
  lemma {:induction false} EngineAfterKill(cfg: ChallengeConfig, s: State, es: seq<Event>, i: nat, n: nat)
    requires i < n <= |es| && Fresh(s) && ActionAt(cfg, s, es, i) == HardFlatten
    ensures var t := StateAt(cfg, s, es, n);
            && t.flattened && t.softHalted
            && t.engine == match LastCommand(es, i + 1, n) case None => Killed case Some(command) => command
    decreases n
  {
    if n == i + 1 {
      KillAtFirstBreach(cfg, s, es, i);
    } else {
      hide ActionAt, BindingFloor;
      EngineAfterKill(cfg, s, es, i, n - 1);
    }
  }

  /** So KILLED holds at event n if and only if the operator has said nothing since, or KILLED. */
  lemma KilledUntilOperator(cfg: ChallengeConfig, s: State, es: seq<Event>, i: nat, n: nat)
    requires i < n <= |es| && Fresh(s) && ActionAt(cfg, s, es, i) == HardFlatten
    ensures StateAt(cfg, s, es, n).engine == Killed
            <==> LastCommand(es, i + 1, n).None? || LastCommand(es, i + 1, n) == Some(Killed)
  {
    hide ActionAt, LastCommand;
    EngineAfterKill(cfg, s, es, i, n);
  }

  /** No later event is acted on, however deep the breach, even if the operator has reactivated
      the engine. */
  lemma InertAfterKill(cfg: ChallengeConfig, s: State, es: seq<Event>, i: nat, j: nat)
    requires i < j < |es| && Fresh(s) && ActionAt(cfg, s, es, i) == HardFlatten
    ensures ActionAt(cfg, s, es, j) == NoAction
  {
    EngineAfterKill(cfg, s, es, i, j);
    hide BindingFloor, StateAt;
  }

  /** A stream on which KILLED gives way to PAUSED without a confirmed restart, and then an active
      engine falls through its floor unwatched. */
  lemma PauseUnkills(cfg: ChallengeConfig, s: State) returns (es: seq<Event>)
    requires Fresh(s)
    ensures |es| == 4 && ActionAt(cfg, s, es, 0) == HardFlatten && StateAt(cfg, s, es, 1).engine == Killed
    ensures es[1] == Operator(Paused) && StateAt(cfg, s, es, 2).engine == Paused
    ensures es[2] == Operator(Active) && Breach(cfg, s, es, 3)
    ensures ActionAt(cfg, s, es, 3) == NoAction && StateAt(cfg, s, es, 4).engine == Active
  {
    es := [Equity(Floor(cfg, s), 0), Operator(Paused), Operator(Active), Equity(Floor(cfg, s) - 1.0, 0)];
    hide BindingFloor;
    assert StateAt(cfg, s, es, 0) == s;
    assert StateAt(cfg, s, es, 1) == AfterEquity(cfg, s, Floor(cfg, s), 0);
    assert StateAt(cfg, s, es, 2) == StateAt(cfg, s, es, 1).(engine := Paused);
    assert StateAt(cfg, s, es, 3) == StateAt(cfg, s, es, 1).(engine := Active);
  }
}
