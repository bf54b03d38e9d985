/** forward_test.py: the steps of one worker that nobody disturbs add up to one tick. */
module SoloTick {
  import opened Market
  import opened ForwardTest
  import opened MarkingProtocol

  /** One pass of the loop: visit the next bar, send what is owed. */
  function Rounds(w: nat, n: nat): seq<Step> {
    if n == 0 then [] else Rounds(w, n - 1) + [Advance(w), Send(w)]
  }

  lemma LastRound(job: Job, w: nat, n: nat, s: State)
    requires n > 0
    ensures After(job, Rounds(w, n), s)
            == Apply(job, Send(w), Apply(job, Advance(w), After(job, Rounds(w, n - 1), s)))
  {
    hide Apply;
    var before, all := Rounds(w, n - 1), Rounds(w, n);
    assert all[..|all| - 1] == before + [Advance(w)];
    assert (before + [Advance(w)])[..|before|] == before;
  }

  /** The shared state once the loop body stands at bar n of the window. */
  ghost predicate Stands(job: Job, w: nat, lo: nat, hi: nat, last: int, n: nat, m: Marked, s0: State, s: State) {
    && s.rows == m.rows && s.alerts == s0.alerts + m.alerts
    && w in s.workers && s.workers[w] == Marking(lo, hi, lo + n, m.equity, last, None)
  }

  lemma RoundMarks(job: Job, w: nat, lo: nat, hi: nat, last: int, n: nat, m: Marked, s0: State, s: State)
    requires lo < hi <= |job.history| && 1 <= n < hi - lo && CanMark(job.history[lo..hi], last, n)
    requires Stands(job, w, lo, hi, last, n, m, s0, s)
    ensures Stands(job, w, lo, hi, last, n + 1, MarkBar(job.math, job.track, job.history[lo..hi], last, n, m), s0,
                   Apply(job, Send(w), Apply(job, Advance(w), s)))
  {
    hide NextMark, Announced, HasLog;
    var cs := job.history[lo..hi];
    assert cs[n] == job.history[lo + n] && cs[n - 1] == job.history[lo + n - 1];
  }

  lemma {:induction false} RoundsMark(job: Job, w: nat, lo: nat, hi: nat, last: int, equity: real, n: nat, s0: State)
    requires lo < hi <= |job.history| && 1 <= n <= Markable(job.history[lo..hi], last, hi - lo)
    requires w in s0.workers && s0.workers[w] == Marking(lo, hi, lo + 1, equity, last, None)
    ensures Stands(job, w, lo, hi, last, n,
                   MarkBars(job.math, job.track, job.history[lo..hi], last, n, Marked(s0.rows, equity, [], false)),
                   s0, After(job, Rounds(w, n - 1), s0))
  {
    hide Apply, MarkBar, CanMark, Markable;
    if n > 1 {
      RoundsMark(job, w, lo, hi, last, equity, n - 1, s0);
      LastRound(job, w, n - 1, s0);
      RoundMarks(job, w, lo, hi, last, n - 1,
                 MarkBars(job.math, job.track, job.history[lo..hi], last, n - 1, Marked(s0.rows, equity, [], false)),
                 s0, After(job, Rounds(w, n - 2), s0));
    }
  }

  /** A worker that is not there, or cannot go on, stays as it is. */
  ghost predicate Stuck(job: Job, w: nat, s: State) {
    w in s.workers ==> !CanAdvance(job, s.workers[w]) && !Owes(s.workers, w)
  }

  lemma {:induction false} StuckRounds(job: Job, w: nat, m: nat, n: nat, s: State)
    requires m <= n && Stuck(job, w, After(job, Rounds(w, m), s))
    ensures After(job, Rounds(w, n), s) == After(job, Rounds(w, m), s)
    decreases n
  {
    if m < n {
      hide CanAdvance, AdvanceStep, SendStep;
      StuckRounds(job, w, m, n - 1, s);
      LastRound(job, w, n, s);
    }
  }

  /** Reading and then visiting every bar of the window, sending each alert at once, does to the
      table and the alerts what the undisturbed tick does, whether it finds the table empty, too
      old, or in between, and also where the tick breaks. */
  lemma {:induction false} UndisturbedTick(job: Job, w: nat, lo: nat, hi: nat, s: State)
    requires w !in s.workers && lo + MIN_HISTORY < hi <= |job.history|
    ensures var steps := if s.rows == map[] then [Incept(w)] else Rounds(w, hi - lo - 1);
            var done := TickRows(job.math, job.track, job.history[lo..hi], s.rows);
            var s' := After(job, steps, Apply(job, Read(w, lo, hi), s));
            s'.rows == done.rows && s'.alerts == s.alerts + done.alerts
  {
    hide MarkBars, Markable, NextMark, InceptionMark, Owes;
    var s1 := Apply(job, Read(w, lo, hi), s);
    if s.rows == map[] {
      OneStep(job, Incept(w), s1);
    } else if LastOpen(s.rows) < job.history[lo + MIN_HISTORY].openTime {
      StuckRounds(job, w, 0, hi - lo - 1, s1);
    } else {
      var last := LastOpen(s.rows);
      hide TickRows;
      Resumes(job, w, lo, hi, last, s, s1);
    }
  }

  lemma {:induction false} Resumes(job: Job, w: nat, lo: nat, hi: nat, last: int, s: State, s1: State)
    requires lo + MIN_HISTORY < hi <= |job.history| && s.rows != map[] && last == LastOpen(s.rows)
    requires last >= job.history[lo + MIN_HISTORY].openTime
    requires s1 == s.(workers := s.workers[w := Marking(lo, hi, lo + 1, s.rows[last].equity, last, None)])
    ensures var done := TickRows(job.math, job.track, job.history[lo..hi], s.rows);
            var s' := After(job, Rounds(w, hi - lo - 1), s1);
            s'.rows == done.rows && s'.alerts == s.alerts + done.alerts
  {
    hide MarkBars, Apply, Markable, HasLog;
    var cs := job.history[lo..hi];
    var n := Markable(cs, last, hi - lo);
    RoundsMark(job, w, lo, hi, last, s.rows[last].equity, n, s1);
    if n < hi - lo {
      assert !CanMark(cs, last, n);
      assert cs[n] == job.history[lo + n] && cs[n - 1] == job.history[lo + n - 1];
      StuckRounds(job, w, n - 1, hi - lo - 1, s1);
    }
  }

  lemma OneStep(job: Job, step: Step, s: State)
    ensures After(job, [step], s) == Apply(job, step, s)
  {
    hide Apply;
    assert [step][..0] == [];
  }

}
