/** forward_test.py: many marking workers over one shared table. Each worker owns its fetched
    window, cursor and equity; the shared steps are the read of the newest mark, the insertion of
    one row, and the sending of one alert, interleaved in any order. A worker may die at any
    point and its slot may start over with any other window. */
module MarkingProtocol {
  import opened Market
  import opened ForwardTest

  /** What all workers have in common: the rule and the immutable bar history. */
  datatype Job = Job(math: Math, track: Track, history: seq<Candle>)

  datatype Worker =
    | Incepting(lo: nat, hi: nat)
    | Marking(lo: nat, hi: nat, next: nat, equity: real, last: int, pending: Option<int>)

  datatype State = State(rows: map<int, Mark>, workers: map<nat, Worker>, alerts: seq<int>)

  /** Read: fetch bars lo..hi-1 and read the newest mark. Advance: visit the next bar of the
      window, inserting its row if it is new. Send: post the alert of the row just inserted.
      Incept: insert the first row. Stop: finish or crash. A step that is not possible in a
      state does nothing. */
  datatype Step = Read(w: nat, lo: nat, hi: nat) | Advance(w: nat) | Send(w: nat) | Incept(w: nat) | Stop(w: nat)

  const START := State(map[], map[], [])

  ghost function ReadStep(job: Job, w: nat, lo: nat, hi: nat, s: State): State {
    if w in s.workers || hi > |job.history| || hi < lo + MIN_HISTORY + 1 then s
    else if s.rows == map[] then s.(workers := s.workers[w := Incepting(lo, hi)])
    else
      var last := LastOpen(s.rows);
      if last < job.history[lo + MIN_HISTORY].openTime then s
      else s.(workers := s.workers[w := Marking(lo, hi, lo + 1, s.rows[last].equity, last, None)])
  }

  /** A new bar without a log return stops the worker for good. */
  predicate CanAdvance(job: Job, k: Worker) {
    && k.Marking? && k.pending.None? && k.lo < k.next < k.hi <= |job.history|
    && (job.history[k.next].openTime <= k.last || HasLog(job.history[k.next - 1].close, job.history[k.next].close))
  }

  predicate CanIncept(job: Job, k: Worker) {
    k.Incepting? && k.lo < k.hi <= |job.history|
  }

  /** A worker that inserted a flip has an alert to send before it moves on. */
  predicate Owes(workers: map<nat, Worker>, w: nat) {
    w in workers && workers[w].Marking? && workers[w].pending.Some?
  }

  function Without(workers: map<nat, Worker>, w: nat): map<nat, Worker> {
    workers - {w}
  }

  function AdvanceStep(job: Job, w: nat, k: Worker, s: State): State
    requires CanAdvance(job, k)
  {
    var key := job.history[k.next].openTime;
    if key <= k.last then s.(workers := s.workers[w := k.(next := k.next + 1)]) else
    var mark := NextMark(job.math, job.track, job.history[k.lo..k.hi], k.next - k.lo, k.equity);
    var alert := if key !in s.rows && Announced(job.track, mark) then Some(key) else None;
    State(InsertIfAbsent(s.rows, key, mark),
          s.workers[w := k.(next := k.next + 1, equity := mark.equity, pending := alert)], s.alerts)
  }

  function SendStep(w: nat, k: Worker, s: State): State
    requires k.Marking? && k.pending.Some?
  {
    s.(workers := s.workers[w := k.(pending := None)], alerts := s.alerts + [k.pending.value])
  }

  function InceptStep(job: Job, w: nat, k: Worker, s: State): State
    requires CanIncept(job, k)
  {
    var mark := InceptionMark(job.math, job.track, job.history[k.lo..k.hi], k.hi - k.lo - 1);
    State(InsertIfAbsent(s.rows, job.history[k.hi - 1].openTime, mark), Without(s.workers, w), s.alerts)
  }

  ghost function Apply(job: Job, step: Step, s: State): State {
    match step
    case Read(w, lo, hi) => ReadStep(job, w, lo, hi, s)
    case Advance(w) =>
      if w in s.workers && CanAdvance(job, s.workers[w]) then AdvanceStep(job, w, s.workers[w], s) else s
    case Send(w) =>
      if Owes(s.workers, w) then SendStep(w, s.workers[w], s) else s
    case Incept(w) =>
      if w in s.workers && CanIncept(job, s.workers[w]) then InceptStep(job, w, s.workers[w], s) else s
    case Stop(w) => s.(workers := Without(s.workers, w))
  }

  ghost function After(job: Job, steps: seq<Step>, s: State): State {
    if steps == [] then s else Apply(job, steps[|steps| - 1], After(job, steps[..|steps| - 1], s))
  }

  // ----- the invariant

  /** The rule is flat at bar b and at the next one, so that starting there costs and earns
      nothing (the exponential of zero being one); and a run from b gets to the next bar. */
  predicate FlatPair(job: Job, b: nat) {
    && b + 1 < |job.history| && job.math.exp(0.0) == 1.0
    && HasLog(job.history[b].close, job.history[b + 1].close)
    && Position(job.track, job.history, b) == 0 && Position(job.track, job.history, b + 1) == 0
  }

  /** The bars at which a first row may be written: bar low, and its successor if the rule is
      flat at both. */
  predicate MayStart(job: Job, low: nat, b: int) {
    b == low || (b == low + 1 && FlatPair(job, low))
  }

  /** A worker that saw bar r as the newest row has reached the later of r and its cursor, and
      carries the equity of the uninterrupted run at that bar. */
  ghost predicate OnTrack(job: Job, low: nat, b: nat, top: nat, k: Worker, r: nat) {
    match k
    case Incepting(lo, hi) => MayStart(job, low, hi - 1) && lo + MIN_HISTORY < hi
    case Marking(lo, hi, next, equity, last, _) =>
      && b <= r <= top < |job.history| && last == job.history[r].openTime
      && lo + MIN_HISTORY <= r && lo < next <= hi <= |job.history|
      && PaceOf(r, next - 1) <= top
      && equity == RunMark(job.math, job.track, job.history, b, PaceOf(r, next - 1)).equity
  }

  ghost predicate AllOnTrack(job: Job, low: nat, b: nat, top: nat, workers: map<nat, Worker>) {
    forall w | w in workers :: SomewhereOnTrack(job, low, b, top, workers[w])
  }

  ghost predicate SomewhereOnTrack(job: Job, low: nat, b: nat, top: nat, k: Worker) {
    exists r :: OnTrack(job, low, b, top, k, r)
  }

  predicate FlipRow(job: Job, rows: map<int, Mark>, key: int) {
    key in rows && Announced(job.track, rows[key])
  }

  ghost predicate Grows(rows: map<int, Mark>, rows': map<int, Mark>) {
    forall key | key in rows :: key in rows' && rows'[key] == rows[key]
  }

  /** Alerts sent or about to be sent belong to different rows, all of them flips in the table. */
  ghost predicate AlertsDistinct(job: Job, s: State) {
    && (forall i | 0 <= i < |s.alerts| :: FlipRow(job, s.rows, s.alerts[i]))
    && (forall i, j | 0 <= i < j < |s.alerts| :: s.alerts[i] != s.alerts[j])
    && (forall w | Owes(s.workers, w) :: FlipRow(job, s.rows, s.workers[w].pending.value))
    && (forall w, i | Owes(s.workers, w) && 0 <= i < |s.alerts| :: s.workers[w].pending.value != s.alerts[i])
    && (forall v, w | Owes(s.workers, v) && Owes(s.workers, w) && v != w ::
          s.workers[v].pending.value != s.workers[w].pending.value)
  }

  ghost predicate Started(job: Job, low: nat, b: nat, top: nat, s: State) {
    && MayStart(job, low, b) && b <= top < |job.history| && Logged(job.history, b, top)
    && s.rows == RunTable(job.math, job.track, job.history, b, top)
    && AllOnTrack(job, low, b, top, s.workers)
  }

  ghost predicate Waiting(job: Job, low: nat, s: State) {
    && s.rows == map[]
    && forall w | w in s.workers :: s.workers[w].Incepting? && MayStart(job, low, s.workers[w].hi - 1)
                                    && s.workers[w].lo + MIN_HISTORY < s.workers[w].hi
  }

  /** No row yet, or the table of a run so far. */
  ghost predicate Underway(job: Job, low: nat, s: State) {
    Waiting(job, low, s) || exists b, top :: Started(job, low, b, top, s)
  }

  ghost predicate Invariant(job: Job, low: nat, s: State) {
    && low < |job.history| && Bars(job.history)
    && AlertsDistinct(job, s)
    && Underway(job, low, s)
  }

  /** Workers that find the table empty have fetched windows that end where a first row may be
      written. */
  ghost predicate Agrees(job: Job, low: nat, step: Step, s: State) {
    step.Read? && s.rows == map[] ==> MayStart(job, low, step.hi - 1)
  }

  // ----- preservation, step by step

  lemma {:induction false} TopGrows(job: Job, low: nat, b: nat, top: nat, workers: map<nat, Worker>)
    requires top + 1 < |job.history| && AllOnTrack(job, low, b, top, workers)
    ensures AllOnTrack(job, low, b, top + 1, workers)
  {
    hide PaceOf, RunMark;
    forall w | w in workers ensures SomewhereOnTrack(job, low, b, top + 1, workers[w]) {
      assert SomewhereOnTrack(job, low, b, top, workers[w]);
      var r :| OnTrack(job, low, b, top, workers[w], r);
      assert OnTrack(job, low, b, top + 1, workers[w], r);
    }
  }

  lemma {:induction false} WorkerJoins(job: Job, low: nat, b: nat, top: nat, workers: map<nat, Worker>, w: nat,
                                       k: Worker, r: nat)
    requires AllOnTrack(job, low, b, top, workers) && OnTrack(job, low, b, top, k, r)
    ensures AllOnTrack(job, low, b, top, workers[w := k])
  {
    hide OnTrack;
    var joined := workers[w := k];
    forall v | v in joined ensures SomewhereOnTrack(job, low, b, top, joined[v]) {
      if v == w {
        assert OnTrack(job, low, b, top, joined[v], r);
      } else {
        assert joined[v] == workers[v];
      }
    }
  }

  lemma {:induction false} WorkerLeaves(job: Job, low: nat, b: nat, top: nat, workers: map<nat, Worker>, w: nat)
    requires AllOnTrack(job, low, b, top, workers)
    ensures AllOnTrack(job, low, b, top, workers - {w})
  {
    hide OnTrack;
    forall v | v in workers - {w} ensures SomewhereOnTrack(job, low, b, top, (workers - {w})[v]) {
      assert (workers - {w})[v] == workers[v];
    }
  }

  lemma {:induction false} ReadKeeps(job: Job, low: nat, b: nat, top: nat, w: nat, lo: nat, hi: nat, s: State)
    requires Bars(job.history) && Started(job, low, b, top, s)
    ensures Started(job, low, b, top, ReadStep(job, w, lo, hi, s))
  {
    hide RunTable, RunMark, AllOnTrack;
    RunTableKeys(job.math, job.track, job.history, b, top);
    RunTableRows(job.math, job.track, job.history, b, top, top);
    if !(w in s.workers || hi > |job.history| || hi < lo + MIN_HISTORY + 1) {
      var last := LastOpen(s.rows);
      assert last == job.history[top].openTime;
      if last >= job.history[lo + MIN_HISTORY].openTime {
        assert lo + MIN_HISTORY <= top;
        var k := Marking(lo, hi, lo + 1, s.rows[last].equity, last, None);
        assert OnTrack(job, low, b, top, k, top);
        WorkerJoins(job, low, b, top, s.workers, w, k, top);
      }
    }
  }

  /** Visiting a bar already covered by the mark that was read changes only the cursor. */
  lemma {:induction false} SkipOnTrack(job: Job, low: nat, b: nat, top: nat, k: Worker, r: nat)
    requires Bars(job.history) && k.Marking? && OnTrack(job, low, b, top, k, r) && k.next < k.hi
    requires job.history[k.next].openTime <= k.last
    ensures k.next <= r
    ensures OnTrack(job, low, b, top, k.(next := k.next + 1), r)
  {
    hide RunMark;
  }

  /** Otherwise the cursor stands right behind the worker's last row, and the row it computes
      is the one the uninterrupted run writes there. */
  lemma {:induction false} NextOnTrack(job: Job, low: nat, b: nat, top: nat, k: Worker, r: nat)
    requires Bars(job.history) && k.Marking? && OnTrack(job, low, b, top, k, r) && k.next < k.hi
    requires job.history[k.next].openTime > k.last
    ensures b < k.next <= top + 1 && k.next < |job.history|
    ensures NextMark(job.math, job.track, job.history[k.lo..k.hi], k.next - k.lo, k.equity)
            == RunMark(job.math, job.track, job.history, b, k.next)
  {
    hide NextMark, InceptionMark;
    assert k.next > r;
    assert PaceOf(r, k.next - 1) == k.next - 1;
    MarkShift(job.math, job.track, job.history, k.lo, k.hi, k.next - k.lo, k.equity);
  }

  /** Inserting bar i of the run into a table that reaches at least i-1. */
  lemma {:induction false} InsertKeeps(job: Job, b: nat, top: nat, i: nat)
    requires Bars(job.history) && b <= top < |job.history| && b <= i <= top + 1 && i < |job.history|
    ensures var t := RunTable(job.math, job.track, job.history, b, top);
            var mark := RunMark(job.math, job.track, job.history, b, i);
            var key := job.history[i].openTime;
            && (key in t <==> i <= top)
            && InsertIfAbsent(t, key, mark)
               == RunTable(job.math, job.track, job.history, b, if i <= top then top else i)
  {
    RunTableRows(job.math, job.track, job.history, b, top, i);
  }

  lemma {:induction false} AdvanceKeeps(job: Job, low: nat, b: nat, top: nat, w: nat, s: State)
    requires Bars(job.history) && Started(job, low, b, top, s)
    requires w in s.workers && CanAdvance(job, s.workers[w])
    ensures exists top' :: Started(job, low, b, top', AdvanceStep(job, w, s.workers[w], s))
  {
    hide RunTable, RunMark, AllOnTrack, NextMark, OnTrack, InsertIfAbsent;
    var k := s.workers[w];
    var r := ReadBar(job, low, b, top, s.workers, w);
    var key := job.history[k.next].openTime;
    if key <= k.last {
      SkipOnTrack(job, low, b, top, k, r);
      WorkerJoins(job, low, b, top, s.workers, w, k.(next := k.next + 1), r);
      assert Started(job, low, b, top, AdvanceStep(job, w, k, s));
    } else {
      NextOnTrack(job, low, b, top, k, r);
      InsertKeeps(job, b, top, k.next);
      var top' := if k.next <= top then top else k.next;
      if top' > top {
        TopGrows(job, low, b, top, s.workers);
      }
      var s' := AdvanceStep(job, w, k, s);
      var k' := s'.workers[w];
      MovedOnTrack(job, low, b, top, top', k, k', r);
      WorkerJoins(job, low, b, top', s.workers, w, k', r);
      assert Started(job, low, b, top', s');
    }
  }

  lemma ReadBar(job: Job, low: nat, b: nat, top: nat, workers: map<nat, Worker>, w: nat) returns (r: nat)
    requires w in workers && AllOnTrack(job, low, b, top, workers)
    ensures OnTrack(job, low, b, top, workers[w], r)
  {
    assert SomewhereOnTrack(job, low, b, top, workers[w]);
    r :| OnTrack(job, low, b, top, workers[w], r);
  }

  lemma {:induction false} MovedOnTrack(job: Job, low: nat, b: nat, top: nat, top': nat, k: Worker, k': Worker, r: nat)
    requires Bars(job.history) && k.Marking? && OnTrack(job, low, b, top, k, r) && k.next < k.hi
    requires job.history[k.next].openTime > k.last
    requires b <= k.next <= top' < |job.history| && top <= top'
    requires k'.Marking? && k' == k.(next := k.next + 1, equity := k'.equity, pending := k'.pending)
    requires k'.equity == RunMark(job.math, job.track, job.history, b, k.next).equity
    ensures OnTrack(job, low, b, top', k', r)
  {
    hide RunMark;
    assert k.next > r;
  }

  // ----- two adjacent flat bars

  /** After a flat inception the run's next row is the row of an inception one bar later; */
  lemma FlatMark(job: Job, b: nat)
    requires FlatPair(job, b)
    ensures RunMark(job.math, job.track, job.history, b, b + 1)
            == InceptionMark(job.math, job.track, job.history, b + 1)
  {
    hide Position;
    assert -FEE * (0 as real) == 0.0;
    var prev, cur := job.history[b].close, job.history[b + 1].close;
    assert (0 as real) * LogReturn(job.math, prev, cur) - FEE * (0 as real) == 0.0;
  }

  /** so the two runs agree from there on, */
  lemma {:induction false} RebasedMark(job: Job, b: nat, i: nat)
    requires FlatPair(job, b) && b + 1 <= i < |job.history|
    ensures RunMark(job.math, job.track, job.history, b, i) == RunMark(job.math, job.track, job.history, b + 1, i)
    decreases i
  {
    hide NextMark, InceptionMark, FlatPair;
    if i == b + 1 {
      FlatMark(job, b);
    } else {
      RebasedMark(job, b, i - 1);
    }
  }

  /** and their tables differ in the earlier row only. */
  lemma {:induction false} RebasedTable(job: Job, b: nat, top: nat)
    requires Bars(job.history) && FlatPair(job, b) && b + 1 <= top < |job.history|
    ensures var later := RunTable(job.math, job.track, job.history, b + 1, top);
            RunTable(job.math, job.track, job.history, b, top)
            == later[job.history[b].openTime := InceptionMark(job.math, job.track, job.history, b)]
    decreases top
  {
    hide NextMark, InceptionMark, FlatPair;
    RebasedMark(job, b, top);
    if top > b + 1 {
      RebasedTable(job, b, top - 1);
    }
  }

  lemma FlatPairIsLogged(job: Job, b: nat)
    requires FlatPair(job, b)
    ensures b + 1 < |job.history| && HasLog(job.history[b].close, job.history[b + 1].close)
  {
  }

  lemma {:induction false} Rebased(job: Job, low: nat, top: nat, workers: map<nat, Worker>)
    requires FlatPair(job, low) && AllOnTrack(job, low, low + 1, top, workers)
    ensures AllOnTrack(job, low, low, top, workers)
  {
    hide RunMark, FlatPair;
    forall w | w in workers ensures SomewhereOnTrack(job, low, low, top, workers[w]) {
      assert SomewhereOnTrack(job, low, low + 1, top, workers[w]);
      var r :| OnTrack(job, low, low + 1, top, workers[w], r);
      if workers[w].Marking? {
        RebasedMark(job, low, PaceOf(r, workers[w].next - 1));
      }
      assert OnTrack(job, low, low, top, workers[w], r);
    }
  }

  /** A first row that comes second: already there, one bar before the run, or right behind it. */
  lemma {:induction false} LateInception(job: Job, low: nat, b: nat, top: nat, e: nat, s: State)
    requires Bars(job.history) && Started(job, low, b, top, s) && MayStart(job, low, e) && e < |job.history|
    ensures exists b', top' ::
              Started(job, low, b', top',
                      s.(rows := InsertIfAbsent(s.rows, job.history[e].openTime,
                                                InceptionMark(job.math, job.track, job.history, e))))
  {
    hide InceptionMark, NextMark, AllOnTrack, RunTable, RunMark, FlatPair;
    var mark := InceptionMark(job.math, job.track, job.history, e);
    var s' := s.(rows := InsertIfAbsent(s.rows, job.history[e].openTime, mark));
    hide HasLog;
    RunTableRows(job.math, job.track, job.history, b, top, e);
    if b <= e <= top {
      assert Started(job, low, b, top, s');
    } else if e < b {
      FlatPairIsLogged(job, low);
      RebasedTable(job, low, top);
      Rebased(job, low, top, s.workers);
      assert Started(job, low, low, top, s');
    } else {
      FlatPairIsLogged(job, low);
      FlatMark(job, low);
      InsertKeeps(job, b, top, e);
      TopGrows(job, low, b, top, s.workers);
      assert Started(job, low, b, top + 1, s');
    }
  }

  /** The window's own first row is the history's. */
  lemma InceptRow(job: Job, w: nat, k: Worker, s: State)
    requires CanIncept(job, k) && k.lo + MIN_HISTORY < k.hi
    ensures InceptStep(job, w, k, s)
            == State(InsertIfAbsent(s.rows, job.history[k.hi - 1].openTime,
                                    InceptionMark(job.math, job.track, job.history, k.hi - 1)),
                     Without(s.workers, w), s.alerts)
  {
    hide InceptionMark, NextMark;
    MarkShift(job.math, job.track, job.history, k.lo, k.hi, k.hi - 1 - k.lo, 0.0);
  }

  lemma {:induction false} FirstInception(job: Job, low: nat, e: nat, w: nat, s: State)
    requires Bars(job.history) && e < |job.history| && MayStart(job, low, e) && Waiting(job, low, s)
    ensures var first := InceptionMark(job.math, job.track, job.history, e);
            Started(job, low, e, e, State(map[job.history[e].openTime := first], Without(s.workers, w), s.alerts))
  {
    hide InceptionMark, NextMark, MayStart;
    var workers := Without(s.workers, w);
    forall v | v in workers ensures SomewhereOnTrack(job, low, e, e, workers[v]) {
      assert workers[v] == s.workers[v];
      assert OnTrack(job, low, e, e, workers[v], e);
    }
  }

  lemma {:induction false} InceptKeeps(job: Job, low: nat, w: nat, s: State)
    requires Bars(job.history) && low < |job.history|
    requires w in s.workers && CanIncept(job, s.workers[w])
    requires MayStart(job, low, s.workers[w].hi - 1) && s.workers[w].lo + MIN_HISTORY < s.workers[w].hi
    requires Underway(job, low, s)
    ensures Underway(job, low, InceptStep(job, w, s.workers[w], s))
    ensures InceptStep(job, w, s.workers[w], s).rows != map[]
  {
    var e := s.workers[w].hi - 1;
    InceptRow(job, w, s.workers[w], s);
    hide InceptStep, InceptionMark, FlatPair, MayStart, AllOnTrack, RunTable;
    if Waiting(job, low, s) {
      FirstInception(job, low, e, w, s);
    } else {
      hide Waiting;
      var b, top :| Started(job, low, b, top, s);
      LateInception(job, low, b, top, e, s);
      var rows := InsertIfAbsent(s.rows, job.history[e].openTime, InceptionMark(job.math, job.track, job.history, e));
      var b', top' :| Started(job, low, b', top', s.(rows := rows));
      WorkerLeaves(job, low, b', top', s.workers, w);
      assert Started(job, low, b', top', State(rows, Without(s.workers, w), s.alerts));
    }
  }

  lemma {:induction false} SendKeeps(job: Job, low: nat, b: nat, top: nat, w: nat, s: State)
    requires Started(job, low, b, top, s) && Owes(s.workers, w)
    ensures Started(job, low, b, top, SendStep(w, s.workers[w], s))
  {
    hide RunMark, RunTable;
    var r := ReadBar(job, low, b, top, s.workers, w);
    assert OnTrack(job, low, b, top, s.workers[w].(pending := None), r);
    WorkerJoins(job, low, b, top, s.workers, w, s.workers[w].(pending := None), r);
  }

  /** Every step keeps the table on the uninterrupted run. */
  lemma {:induction false} StepKeepsRun(job: Job, low: nat, step: Step, s: State)
    requires Invariant(job, low, s) && Agrees(job, low, step, s)
    ensures var s' := Apply(job, step, s);
            Underway(job, low, s')
  {
    var s' := Apply(job, step, s);
    if Waiting(job, low, s) {
      WaitingStep(job, low, step, s);
    } else {
      hide Waiting;
      var b, top :| Started(job, low, b, top, s);
      StartedStep(job, low, b, top, step, s);
    }
  }

  lemma {:induction false} WaitingStep(job: Job, low: nat, step: Step, s: State)
    requires Bars(job.history) && low < |job.history| && Waiting(job, low, s) && Agrees(job, low, step, s)
    ensures var s' := Apply(job, step, s);
            Underway(job, low, s')
  {
    hide Started, InceptStep, AdvanceStep, MayStart;
    if step.Incept? && step.w in s.workers && CanIncept(job, s.workers[step.w]) {
      InceptKeeps(job, low, step.w, s);
    }
  }

  lemma {:induction false} StartedStep(job: Job, low: nat, b: nat, top: nat, step: Step, s: State)
    requires Bars(job.history) && Started(job, low, b, top, s)
    ensures exists b', top' :: Started(job, low, b', top', Apply(job, step, s))
  {
    hide RunTable, AllOnTrack, ReadStep, AdvanceStep, InceptStep, SendStep;
    var s' := Apply(job, step, s);
    match step
    case Read(w, lo, hi) =>
      ReadKeeps(job, low, b, top, w, lo, hi, s);
    case Stop(w) =>
      WorkerLeaves(job, low, b, top, s.workers, w);
      assert Started(job, low, b, top, s');
    case Advance(w) =>
      if w in s.workers && CanAdvance(job, s.workers[w]) {
        AdvanceKeeps(job, low, b, top, w, s);
      } else {
        assert Started(job, low, b, top, s');
      }
    case Send(w) =>
      if Owes(s.workers, w) {
        SendKeeps(job, low, b, top, w, s);
      } else {
        assert Started(job, low, b, top, s');
      }
    case Incept(w) =>
      if w in s.workers && CanIncept(job, s.workers[w]) {
        var r := ReadBar(job, low, b, top, s.workers, w);
        InceptKeeps(job, low, w, s);
      } else {
        assert Started(job, low, b, top, s');
      }
  }

  /** Every step keeps the alerts apart: a row is inserted once, so it is announced once. */
  lemma {:induction false} StepKeepsAlerts(job: Job, step: Step, s: State)
    requires AlertsDistinct(job, s)
    ensures AlertsDistinct(job, Apply(job, step, s))
  {
    hide ReadStep, AdvanceStep;
    var s' := Apply(job, step, s);
    match step
    case Read(w, lo, hi) => ReadAlerts(job, w, lo, hi, s);
    case Stop(w) => FewerDebts(job, s, s');
    case Advance(w) =>
      if w in s.workers && CanAdvance(job, s.workers[w]) {
        AdvanceAlerts(job, w, s);
      }
    case Send(w) =>
      if Owes(s.workers, w) {
        SendAlerts(job, w, s);
      }
    case Incept(w) => FewerDebts(job, s, s');
  }

  lemma FewerDebts(job: Job, s: State, s': State)
    requires AlertsDistinct(job, s) && s'.alerts == s.alerts && Grows(s.rows, s'.rows)
    requires forall w | Owes(s'.workers, w) :: Owes(s.workers, w) && s'.workers[w] == s.workers[w]
    ensures AlertsDistinct(job, s')
  {
  }

  lemma ReadAlerts(job: Job, w: nat, lo: nat, hi: nat, s: State)
    requires AlertsDistinct(job, s)
    ensures AlertsDistinct(job, ReadStep(job, w, lo, hi, s))
  {
    FewerDebts(job, s, ReadStep(job, w, lo, hi, s));
  }

  lemma SendAlerts(job: Job, w: nat, s: State)
    requires AlertsDistinct(job, s) && Owes(s.workers, w)
    ensures AlertsDistinct(job, SendStep(w, s.workers[w], s))
  {
    var s' := SendStep(w, s.workers[w], s);
    forall v | Owes(s'.workers, v) ensures v != w && Owes(s.workers, v) && s'.workers[v] == s.workers[v] {
    }
  }

  lemma AdvanceAlerts(job: Job, w: nat, s: State)
    requires AlertsDistinct(job, s) && w in s.workers && CanAdvance(job, s.workers[w])
    ensures AlertsDistinct(job, AdvanceStep(job, w, s.workers[w], s))
  {
    hide NextMark, Announced;
    var s' := AdvanceStep(job, w, s.workers[w], s);
    assert Grows(s.rows, s'.rows);
    forall v | Owes(s'.workers, v)
      ensures v == w ==> s'.workers[w].pending.value !in s.rows && FlipRow(job, s'.rows, s'.workers[w].pending.value)
      ensures v != w ==> Owes(s.workers, v) && s'.workers[v] == s.workers[v]
    {
    }
  }

  lemma {:induction false} StepKeeps(job: Job, low: nat, step: Step, s: State)
    requires Invariant(job, low, s) && Agrees(job, low, step, s)
    ensures Invariant(job, low, Apply(job, step, s))
  {
    hide Apply, AlertsDistinct, Waiting, Started;
    StepKeepsRun(job, low, step, s);
    StepKeepsAlerts(job, step, s);
  }

  // ----- whole runs

  /** No matter how workers overlap, crash and start again, as long as those that found the
      table empty had fetched up to one bar, or to two adjacent bars with the rule flat at both,
      the table is at every moment exactly the table of one uninterrupted run, and no row is
      announced twice. */
  lemma {:induction false} EveryInterleaving(job: Job, low: nat, steps: seq<Step>)
    requires low < |job.history| && Bars(job.history)
    requires forall n | 0 <= n < |steps| :: Agrees(job, low, steps[n], After(job, steps[..n], START))
    ensures Invariant(job, low, After(job, steps, START))
  {
    hide Apply, MayStart;
    if steps != [] {
      var init, last := steps[..|steps| - 1], steps[|steps| - 1];
      forall n | 0 <= n < |init| ensures Agrees(job, low, init[n], After(job, init[..n], START)) {
        assert init[..n] == steps[..n];
      }
      EveryInterleaving(job, low, init);
      StepKeeps(job, low, last, After(job, init, START));
    }
  }

  /** Once the first mark is there nothing is asked of further steps: whatever they read, they
      keep the table on the run and the alerts apart. What is left of the condition is the
      invariant's word on workers that had found the table empty before. */
  lemma {:induction false} AfterInception(job: Job, low: nat, steps: seq<Step>, s: State)
    requires Invariant(job, low, s) && s.rows != map[]
    ensures Invariant(job, low, After(job, steps, s)) && After(job, steps, s).rows != map[]
  {
    hide Apply, Invariant;
    if steps != [] {
      var init, last := steps[..|steps| - 1], steps[|steps| - 1];
      AfterInception(job, low, init, s);
      StepKeeps(job, low, last, After(job, init, s));
      RowsStay(job, last, After(job, init, s));
    }
  }

  lemma RowsStay(job: Job, step: Step, s: State)
    requires s.rows != map[]
    ensures Apply(job, step, s).rows != map[]
  {
    hide NextMark, InceptionMark;
    var key := SomeElement(s.rows.Keys);
    assert key in Apply(job, step, s).rows;
  }

  /** What the invariant says to a reader of the table: the marked bars are a gap-free range
      from an inception bar, and every row is the uninterrupted run's row. */
  lemma {:induction false} GapFree(job: Job, low: nat, s: State) returns (b: nat, top: nat)
    requires Invariant(job, low, s) && s.rows != map[]
    ensures MayStart(job, low, b) && b <= top < |job.history| && Logged(job.history, b, top)
    ensures forall i | 0 <= i < |job.history| :: job.history[i].openTime in s.rows <==> b <= i <= top
    ensures forall i | b <= i <= top ::
              s.rows[job.history[i].openTime] == RunMark(job.math, job.track, job.history, b, i)
  {
    hide RunTable, RunMark;
    b, top :| Started(job, low, b, top, s);
    forall i | 0 <= i < |job.history|
      ensures job.history[i].openTime in s.rows <==> b <= i <= top
      ensures b <= i <= top ==> s.rows[job.history[i].openTime] == RunMark(job.math, job.track, job.history, b, i)
    {
      RunTableRows(job.math, job.track, job.history, b, top, i);
    }
  }
}
