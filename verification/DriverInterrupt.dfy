/**
 What the interrupt of test.py does to the results, over whole runs: which reports are of jobs that ran,
 and which jobs cannot be reported as run any more.
 */
module DriverInterrupt {
  import opened Basics
  import opened TestDriver

  ghost predicate RunningIn(s: State, id: nat) {
    exists w :: 0 <= w < |s.workers| && s.workers[w] == Running(id)
  }

  ghost predicate ReportedIn(s: State, r: Report) {
    r in s.output || r in s.collected || exists w :: 0 <= w < |s.workers| && s.workers[w] == Reporting(r)
  }

  /** The job is still queued, or a worker has taken it and not looked at thread_exit yet. */
  ghost predicate WaitingIn(s: State, id: nat) {
    Real(id) in s.input || exists w :: 0 <= w < |s.workers| && s.workers[w] == Holding(id)
  }

  // ---------------------------------------------------------------- one step

  /** A step of the main thread or an interrupt starts no job and makes no report. */
  lemma NothingNew(c: Config, s: State, t: State)
    requires MainMoves(c, s, t) || Interrupt(s, t)
    ensures forall id :: RunningIn(t, id) ==> RunningIn(s, id)
    ensures forall r :: ReportedIn(t, r) ==> ReportedIn(s, r)
  {
    if MainMoves(c, s, t) {
      assert forall w :: 0 <= w < |t.workers| ==> t.workers[w] == s.workers[w] || t.workers[w] == Idle;
      assert forall r :: r in t.output || r in t.collected ==> r in s.output || r in s.collected;
    }
    forall id | RunningIn(t, id)
      ensures RunningIn(s, id)
    {
      var w :| 0 <= w < |t.workers| && t.workers[w] == Running(id);
      assert s.workers[w] == Running(id);
    }
    forall r | ReportedIn(t, r)
      ensures ReportedIn(s, r)
    {
      if w :| 0 <= w < |t.workers| && t.workers[w] == Reporting(r) {
        assert s.workers[w] == Reporting(r);
      }
    }
  }

  /** A job starts to run when a worker has it in hand, before the interrupt, and not if it is to be skipped. */
  lemma Starts(c: Config, s: State, t: State, id: nat)
    requires Next(c, s, t) && RunningIn(t, id) && !RunningIn(s, id)
    ensures !s.threadExit && !(id < |c.jobs| && c.jobs[id].isSkip)
    ensures exists w :: 0 <= w < |s.workers| && s.workers[w] == Holding(id)
  {
    if MainMoves(c, s, t) || Interrupt(s, t) {
      NothingNew(c, s, t);
    } else {
      var w: nat :| w < |t.workers| && t.workers[w] == Running(id);
      var v: nat :| WorkerMoves(c, s, v, t);
      assert w == v && s.workers[v] == Holding(id);
    }
  }

  /** A report is made of a running job, or of one in hand: interrupted, or to be skipped. */
  lemma Reports(c: Config, s: State, t: State, r: Report)
    requires Next(c, s, t) && ReportedIn(t, r) && !ReportedIn(s, r)
    ensures if r.interrupted then s.threadExit
      else RunningIn(s, r.id) || (!s.threadExit && r.id < |c.jobs| && c.jobs[r.id].isSkip)
  {
    if MainMoves(c, s, t) || Interrupt(s, t) {
      NothingNew(c, s, t);
    } else {
      var v: nat :| WorkerMoves(c, s, v, t);
      assert forall w :: 0 <= w < |s.workers| && w != v ==> t.workers[w] == s.workers[w];
      assert forall q :: q in t.output && q !in s.output ==> s.workers[v] == Reporting(q);
    }
  }

  // ---------------------------------------------------------------- whole runs

  /** What runs at all is a job that is not to be skipped. */
  lemma {:induction false} OnlyRealJobsRun(c: Config, run: seq<State>, i: nat, id: nat)
    requires IsRun(c, run) && i < |run| && RunningIn(run[i], id)
    ensures id < |c.jobs| && !c.jobs[id].isSkip
    decreases i
  {
    hide Next;
    if i > 0 {
      if RunningIn(run[i-1], id) {
        OnlyRealJobsRun(c, run, i - 1, id);
      } else {
        Starts(c, run[i-1], run[i], id);
        KnownJob(c, run, i - 1, id);
      }
    }
  }

  /** What a worker has in hand is a job. */
  lemma KnownJob(c: Config, run: seq<State>, i: nat, id: nat)
    requires IsRun(c, run) && i < |run|
    requires exists w :: 0 <= w < |run[i].workers| && run[i].workers[w] == Holding(id)
    ensures id < |c.jobs|
  {
    hide IsRun;
    OnePlace(c, run, i, id);
    RunInv(c, run, i);
    var w: nat :| w < |run[i].workers| && run[i].workers[w] == Holding(id);
    HeldIsCounted(run[i].workers, w, id);
    DispatchedAreJobs(c, run[i]);
  }

  lemma {:induction false} HeldIsCounted(ws: seq<Worker>, w: nat, id: nat)
    requires w < |ws| && Holds(ws[w], id)
    ensures HeldCount(ws, id) > 0
    decreases |ws|
  {
    if w < |ws| - 1 {
      HeldIsCounted(ws[..|ws|-1], w, id);
    }
  }

  lemma DispatchedAreJobs(c: Config, s: State)
    requires Inv(c, s)
    ensures Dispatched(c, s) <= |c.jobs|
  {
  }

  /** A report of a job that is neither interrupted nor a skip comes after a state in which a worker runs it. */
  lemma {:induction false} ReportedHasRun(c: Config, run: seq<State>, i: nat, id: nat)
    requires IsRun(c, run) && i < |run| && ReportedIn(run[i], Report(id, false))
    requires !(id < |c.jobs| && c.jobs[id].isSkip)
    ensures exists j :: 0 <= j < i && RunningIn(run[j], id)
    decreases i
  {
    hide Next, RunningIn;
    if i > 0 {
      if ReportedIn(run[i-1], Report(id, false)) {
        ReportedHasRun(c, run, i - 1, id);
      } else {
        Reports(c, run[i-1], run[i], Report(id, false));
      }
    }
  }

  /** The interrupt is never taken back. */
  lemma {:induction false} InterruptStays(c: Config, run: seq<State>, i: nat, k: nat)
    requires IsRun(c, run) && i <= k < |run| && run[i].threadExit
    ensures run[k].threadExit
    decreases k
  {
    if i < k {
      InterruptStays(c, run, i, k - 1);
      assert Next(c, run[k-1], run[k]);
    }
  }

  /** After the interrupt a job that does not run yet, and is not reported, is never run. */
  lemma {:induction false} NeverRun(c: Config, run: seq<State>, i: nat, k: nat, id: nat)
    requires IsRun(c, run) && i <= k < |run| && run[i].threadExit
    requires !RunningIn(run[i], id) && !ReportedIn(run[i], Report(id, false))
    ensures !RunningIn(run[k], id) && !ReportedIn(run[k], Report(id, false))
    decreases k
  {
    hide Next, RunningIn, ReportedIn;
    if i < k {
      NeverRun(c, run, i, k - 1, id);
      InterruptStays(c, run, i, k - 1);
      if RunningIn(run[k], id) {
        Starts(c, run[k-1], run[k], id);
      }
      if ReportedIn(run[k], Report(id, false)) {
        Reports(c, run[k-1], run[k], Report(id, false));
      }
    }
  }

  /** A job that waits is in no other place. */
  lemma WaitingOnly(c: Config, run: seq<State>, i: nat, id: nat)
    requires IsRun(c, run) && i < |run| && WaitingIn(run[i], id)
    ensures !RunningIn(run[i], id) && forall r :: ReportedIn(run[i], r) ==> r.id != id
  {
    hide IsRun;
    var s := run[i];
    OnePlace(c, run, i, id);
    if Real(id) in s.input {
      QueuedIsCounted(s.input, id);
    }
    forall w: nat, v: nat | w < |s.workers| && v < |s.workers| && w != v && Holds(s.workers[w], id)
      ensures !Holds(s.workers[v], id)
    {
      if Holds(s.workers[v], id) {
        HeldTwice(s.workers, w, v, id);
      }
    }
    forall w: nat | w < |s.workers| && Holds(s.workers[w], id)
      ensures HeldCount(s.workers, id) > 0
    {
      HeldIsCounted(s.workers, w, id);
    }
    forall r: Report | r.id == id
      ensures r in s.output ==> ReportCount(s.output, id) > 0
      ensures r in s.collected ==> ReportCount(s.collected, id) > 0
    {
      ReportIsCounted(s.output, r);
      ReportIsCounted(s.collected, r);
    }
  }

  lemma {:induction false} HeldTwice(ws: seq<Worker>, w: nat, v: nat, id: nat)
    requires w < |ws| && v < |ws| && w != v && Holds(ws[w], id) && Holds(ws[v], id)
    ensures HeldCount(ws, id) > 1
    decreases |ws|
  {
    var k := |ws| - 1;
    if w == k {
      HeldIsCounted(ws[..k], v, id);
    } else if v == k {
      HeldIsCounted(ws[..k], w, id);
    } else {
      HeldTwice(ws[..k], w, v, id);
    }
  }

  lemma {:induction false} QueuedIsCounted(q: seq<Item>, id: nat)
    requires Real(id) in q
    ensures InputCount(q, id) > 0
    decreases |q|
  {
    if q[|q|-1] != Real(id) {
      QueuedIsCounted(q[..|q|-1], id);
    }
  }

  lemma {:induction false} ReportIsCounted(rs: seq<Report>, r: Report)
    ensures r in rs ==> ReportCount(rs, r.id) > 0
    decreases |rs|
  {
    if rs != [] && rs[|rs|-1] != r {
      ReportIsCounted(rs[..|rs|-1], r);
    }
  }

  /** A job that waits when the interrupt has come is only ever reported as interrupted. */
  lemma WaitingIsInterrupted(c: Config, run: seq<State>, i: nat, k: nat, r: Report)
    requires IsRun(c, run) && i <= k < |run| && run[i].threadExit && WaitingIn(run[i], r.id)
    requires ReportedIn(run[k], r)
    ensures r.interrupted
  {
    hide IsRun, RunningIn, ReportedIn, WaitingIn;
    WaitingOnly(c, run, i, r.id);
    NeverRun(c, run, i, k, r.id);
  }

  // ---------------------------------------------------------------- the results

  lemma {:induction false} CountIsSet(c: Config, rs: seq<Report>, v: Verdict)
    ensures VerdictCount(c, rs, v) == |set i | 0 <= i < |rs| && VerdictOf(c, rs[i]) == v|
    decreases |rs|
  {
    hide VerdictOf;
    if rs != [] {
      var k := |rs| - 1;
      var all := set i | 0 <= i < |rs| && VerdictOf(c, rs[i]) == v;
      var front := set i | 0 <= i < k && VerdictOf(c, rs[..k][i]) == v;
      CountIsSet(c, rs[..k], v);
      assert forall i :: 0 <= i < k ==> rs[..k][i] == rs[i];
      assert all == front + if VerdictOf(c, rs[k]) == v then {k} else {};
    }
  }

  lemma VerdictMeans(c: Config, r: Report)
    ensures VerdictOf(c, r) == Skip <==> Completed(c, r) && c.jobs[r.id].isSkip
    ensures VerdictOf(c, r) == Pass <==> Completed(c, r) && !c.jobs[r.id].isSkip && c.jobs[r.id].code == 0
    ensures VerdictOf(c, r) == Fail <==> Completed(c, r) && !c.jobs[r.id].isSkip && c.jobs[r.id].code == 1
    ensures VerdictOf(c, r) == Valgr <==> Completed(c, r) && !c.jobs[r.id].isSkip && c.jobs[r.id].code == 2
    ensures VerdictOf(c, r) == Crash <==> Completed(c, r) && !c.jobs[r.id].isSkip && !(0 <= c.jobs[r.id].code <= 2)
  {
  }

  /** A collected report of a job that was not interrupted. */
  predicate Completed(c: Config, r: Report) {
    !r.interrupted && r.id < |c.jobs|
  }

  /** The counters at the end, by the flags and return codes of the jobs. */
  lemma FinalTally(c: Config, run: seq<State>)
    requires IsRun(c, run) && run[|run|-1].pc == Done
    ensures var rs, t, n := run[|run|-1].collected, run[|run|-1].tally, |run[|run|-1].collected|;
      && t.skipped == |set i | 0 <= i < n && Completed(c, rs[i]) && c.jobs[rs[i].id].isSkip|
      && t.passed
         == |set i | 0 <= i < n && Completed(c, rs[i]) && !c.jobs[rs[i].id].isSkip && c.jobs[rs[i].id].code == 0|
      && t.failed
         == |set i | 0 <= i < n && Completed(c, rs[i]) && !c.jobs[rs[i].id].isSkip && c.jobs[rs[i].id].code == 1|
      && t.valgrind
         == |set i | 0 <= i < n && Completed(c, rs[i]) && !c.jobs[rs[i].id].isSkip && c.jobs[rs[i].id].code == 2|
      && t.crashed
         == |set i | 0 <= i < n && Completed(c, rs[i]) && !c.jobs[rs[i].id].isSkip
                      && !(0 <= c.jobs[rs[i].id].code <= 2)|
  {
    RunInv(c, run, |run| - 1);
    var s := run[|run|-1];
    var rs, n := s.collected, |s.collected|;
    TallyCounts(c, rs);
    CountIsSet(c, rs, Skip);
    CountIsSet(c, rs, Pass);
    CountIsSet(c, rs, Fail);
    CountIsSet(c, rs, Valgr);
    CountIsSet(c, rs, Crash);
    forall i | 0 <= i < n
      ensures VerdictOf(c, rs[i]) == Skip <==> Completed(c, rs[i]) && c.jobs[rs[i].id].isSkip
      ensures VerdictOf(c, rs[i]) == Pass <==>
        Completed(c, rs[i]) && !c.jobs[rs[i].id].isSkip && c.jobs[rs[i].id].code == 0
      ensures VerdictOf(c, rs[i]) == Fail <==>
        Completed(c, rs[i]) && !c.jobs[rs[i].id].isSkip && c.jobs[rs[i].id].code == 1
      ensures VerdictOf(c, rs[i]) == Valgr <==>
        Completed(c, rs[i]) && !c.jobs[rs[i].id].isSkip && c.jobs[rs[i].id].code == 2
      ensures VerdictOf(c, rs[i]) == Crash <==>
        Completed(c, rs[i]) && !c.jobs[rs[i].id].isSkip && !(0 <= c.jobs[rs[i].id].code <= 2)
    {
      VerdictMeans(c, rs[i]);
    }
    hide *;
    assert (set i | 0 <= i < n && VerdictOf(c, rs[i]) == Skip)
        == set i | 0 <= i < n && Completed(c, rs[i]) && c.jobs[rs[i].id].isSkip;
    assert (set i | 0 <= i < n && VerdictOf(c, rs[i]) == Pass)
        == set i | 0 <= i < n && Completed(c, rs[i]) && !c.jobs[rs[i].id].isSkip && c.jobs[rs[i].id].code == 0;
    assert (set i | 0 <= i < n && VerdictOf(c, rs[i]) == Fail)
        == set i | 0 <= i < n && Completed(c, rs[i]) && !c.jobs[rs[i].id].isSkip && c.jobs[rs[i].id].code == 1;
    assert (set i | 0 <= i < n && VerdictOf(c, rs[i]) == Valgr)
        == set i | 0 <= i < n && Completed(c, rs[i]) && !c.jobs[rs[i].id].isSkip && c.jobs[rs[i].id].code == 2;
    assert (set i | 0 <= i < n && VerdictOf(c, rs[i]) == Crash)
        == set i | 0 <= i < n && Completed(c, rs[i]) && !c.jobs[rs[i].id].isSkip && !(0 <= c.jobs[rs[i].id].code <= 2);
  }

  /** Success means that every job is a skip, or has run and returned 0. */
  lemma SuccessMeansRan(c: Config, run: seq<State>, id: nat)
    requires IsRun(c, run) && run[|run|-1].pc == Done && ExitCode(c, run[|run|-1]) == 0 && id < |c.jobs|
    ensures Report(id, false) in run[|run|-1].collected
    ensures c.jobs[id].isSkip || (c.jobs[id].code == 0 && exists j :: 0 <= j < |run| && RunningIn(run[j], id))
  {
    hide RunningIn, Next;
    var last := |run| - 1;
    var s := run[last];
    RunInv(c, run, last);
    AtTheEnd(c, s);
    FinalCounts(c, run);
    var k := ReportIsThere(s.collected, id);
    assert VerdictOf(c, s.collected[k]) in [Pass, Skip];
    assert s.collected[k] == Report(id, false);
    if !c.jobs[id].isSkip {
      ReportedHasRun(c, run, last, id);
    }
  }

  /** If a job still waits when the interrupt comes, the exit code is 1. */
  lemma InterruptFails(c: Config, run: seq<State>, i: nat, id: nat)
    requires IsRun(c, run) && i < |run| && run[|run|-1].pc == Done && run[i].threadExit && WaitingIn(run[i], id)
    ensures ExitCode(c, run[|run|-1]) == 1
  {
    hide RunningIn, WaitingIn, Next;
    var last := |run| - 1;
    WaitingIsJob(c, run, i, id);
    if ExitCode(c, run[last]) == 0 {
      SuccessMeansRan(c, run, id);
      WaitingIsInterrupted(c, run, i, last, Report(id, false));
    }
  }

  lemma WaitingIsJob(c: Config, run: seq<State>, i: nat, id: nat)
    requires IsRun(c, run) && i < |run| && WaitingIn(run[i], id)
    ensures id < |c.jobs|
  {
    OnePlace(c, run, i, id);
    RunInv(c, run, i);
    hide IsRun;
    DispatchedAreJobs(c, run[i]);
    if Real(id) in run[i].input {
      QueuedIsCounted(run[i].input, id);
    } else {
      KnownJob(c, run, i, id);
    }
  }
}
