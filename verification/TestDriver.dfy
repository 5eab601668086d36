/**
 The concurrent driver of test.py as a step relation: the main thread spawns the workers, queues all
 jobs, queues one poison pill per worker, collects one report per job and joins the workers. Each
 worker takes items from the input queue; SIGINT may set thread_exit at any moment.
 */
module TestDriver {
  import opened Basics

  /** code is what run_job_synchronously would return for the job. */
  datatype Job = Job(isSkip: bool, code: int)

  datatype Config = Config(jobs: seq<Job>, processors: nat)

  datatype Item = Real(id: nat) | Pill

  /** interrupted stands for is_break set by a worker. */
  datatype Report = Report(id: nat, interrupted: bool)

  /** Holding: after get, before thread_exit is read. Reporting: before put. */
  datatype Worker = NotStarted | Idle | Holding(id: nat) | Running(id: nat) | Reporting(report: Report) | Exited

  datatype MainPc =
    | Spawning(i: nat) | Dispatching(i: nat) | Poisoning(i: nat) | Collecting(i: nat) | Joining(i: nat) | Done

  datatype Tally = Tally(passed: nat, failed: nat, valgrind: nat, crashed: nat, skipped: nat)

  datatype State = State(pc: MainPc, input: seq<Item>, workers: seq<Worker>, output: seq<Report>,
                         collected: seq<Report>, tally: Tally, threadExit: bool)

  // ---------------------------------------------------------------- steps

  ghost predicate Init(c: Config, s: State) {
    s == State(Spawning(0), [], seq(c.processors, _ => NotStarted), [], [], Tally(0, 0, 0, 0, 0), false)
  }

  /** Lines 1596-1619 for one report. */
  function Counted(c: Config, t: Tally, r: Report): Tally {
    if r.interrupted || r.id >= |c.jobs| then t
    else if c.jobs[r.id].isSkip then t.(skipped := t.skipped + 1)
    else if c.jobs[r.id].code == 0 then t.(passed := t.passed + 1)
    else if c.jobs[r.id].code == 1 then t.(failed := t.failed + 1)
    else if c.jobs[r.id].code == 2 then t.(valgrind := t.valgrind + 1)
    else t.(crashed := t.crashed + 1)
  }

  /** What the main thread does next; None when it has to wait, or is done. */
  function MainStep(c: Config, s: State): (r: seq<State>)
    ensures |r| <= 1
  {
    match s.pc
    case Spawning(i) =>
      if i < |s.workers| then [s.(pc := Spawning(i + 1), workers := s.workers[i := Idle])]
      else [s.(pc := Dispatching(0))]
    case Dispatching(i) =>
      if i < |c.jobs| then [s.(pc := Dispatching(i + 1), input := s.input + [Real(i)])]
      else [s.(pc := Poisoning(0))]
    case Poisoning(i) =>
      if i < c.processors then [s.(pc := Poisoning(i + 1), input := s.input + [Pill])]
      else [s.(pc := Collecting(0))]
    case Collecting(i) =>
      if i >= |c.jobs| then [s.(pc := Joining(0))]
      else if s.output == [] then []
      else [s.(pc := Collecting(i + 1), output := s.output[1..], collected := s.collected + [s.output[0]],
               tally := Counted(c, s.tally, s.output[0]))]
    case Joining(i) =>
      if i >= |s.workers| then [s.(pc := Done)]
      else if s.workers[i] == Exited then [s.(pc := Joining(i + 1))]
      else []
    case Done => []
  }

  /** Lines 922-989 for worker w; empty when it has to wait, or has not started, or has exited. */
  function WorkerStep(c: Config, s: State, w: nat): (r: seq<State>)
    requires w < |s.workers|
    ensures |r| <= 1
  {
    match s.workers[w]
    case NotStarted => []
    case Exited => []
    case Idle =>
      if s.input == [] then []
      else [s.(input := s.input[1..],
               workers := s.workers[w := if s.input[0] == Pill then Exited else Holding(s.input[0].id)])]
    case Holding(id) =>
      [s.(workers := s.workers[w :=
        if s.threadExit then Reporting(Report(id, true))
        else if id < |c.jobs| && c.jobs[id].isSkip then Reporting(Report(id, false))
        else Running(id)])]
    case Running(id) => [s.(workers := s.workers[w := Reporting(Report(id, false))])]
    case Reporting(r) => [s.(output := s.output + [r], workers := s.workers[w := Idle])]
  }

  ghost predicate MainMoves(c: Config, s: State, t: State) {
    MainStep(c, s) == [t]
  }

  ghost predicate WorkerMoves(c: Config, s: State, w: nat, t: State) {
    w < |s.workers| && WorkerStep(c, s, w) == [t]
  }

  ghost predicate Interrupt(s: State, t: State) {
    !s.threadExit && t == s.(threadExit := true)
  }

  /** A step of the program itself. */
  ghost predicate Moves(c: Config, s: State, t: State) {
    MainMoves(c, s, t) || exists w :: WorkerMoves(c, s, w, t)
  }

  ghost predicate Next(c: Config, s: State, t: State) {
    Moves(c, s, t) || Interrupt(s, t)
  }

  ghost predicate IsRun(c: Config, run: seq<State>) {
    run != [] && Init(c, run[0]) && forall i :: 0 < i < |run| ==> Next(c, run[i-1], run[i])
  }

  // ---------------------------------------------------------------- where the jobs are

  predicate Holds(w: Worker, id: nat) {
    match w
    case Holding(j) => j == id
    case Running(j) => j == id
    case Reporting(r) => r.id == id
    case _ => false
  }

  predicate Busy(w: Worker) {
    w.Holding? || w.Running? || w.Reporting?
  }

  /** How many workers have job id in hand. */
  function HeldCount(ws: seq<Worker>, id: nat): nat {
    if ws == [] then 0 else HeldCount(ws[..|ws|-1], id) + B(Holds(ws[|ws|-1], id))
  }

  function BusyCount(ws: seq<Worker>): nat {
    if ws == [] then 0 else BusyCount(ws[..|ws|-1]) + B(Busy(ws[|ws|-1]))
  }

  function ExitedCount(ws: seq<Worker>): nat {
    if ws == [] then 0 else ExitedCount(ws[..|ws|-1]) + B(ws[|ws|-1] == Exited)
  }

  function ReportCount(rs: seq<Report>, id: nat): nat {
    if rs == [] then 0 else ReportCount(rs[..|rs|-1], id) + B(rs[|rs|-1].id == id)
  }

  /** How often job id is with a worker, in the output queue, or collected. */
  function Copies(s: State, id: nat): nat {
    HeldCount(s.workers, id) + ReportCount(s.output, id) + ReportCount(s.collected, id)
  }

  function Dispatched(c: Config, s: State): nat {
    match s.pc
    case Spawning(_) => 0
    case Dispatching(i) => i
    case _ => |c.jobs|
  }

  function PillsPut(c: Config, s: State): nat {
    match s.pc
    case Spawning(_) => 0
    case Dispatching(_) => 0
    case Poisoning(i) => i
    case _ => c.processors
  }

  function Collected(c: Config, s: State): nat {
    match s.pc
    case Collecting(i) => i
    case Joining(_) => |c.jobs|
    case Done => |c.jobs|
    case _ => 0
  }

  /** How many jobs have left the input queue. */
  function TakenCount(c: Config, s: State): int {
    Dispatched(c, s) + PillsPut(c, s) - ExitedCount(s.workers) - |s.input|
  }

  /** Jobs from t up to d in order, then k pills. */
  function Queue(t: nat, d: nat, k: nat): seq<Item>
    requires t <= d
  {
    seq(d - t, i requires 0 <= i < d - t => Real(t + i)) + seq(k, _ => Pill)
  }

  function TallyOf(c: Config, rs: seq<Report>): Tally {
    if rs == [] then Tally(0, 0, 0, 0, 0) else Counted(c, TallyOf(c, rs[..|rs|-1]), rs[|rs|-1])
  }

  ghost predicate PcInRange(c: Config, s: State) {
    match s.pc
    case Spawning(i) => i <= c.processors
    case Dispatching(i) => i <= |c.jobs|
    case Poisoning(i) => i <= c.processors
    case Collecting(i) => i <= |c.jobs|
    case Joining(i) => i <= c.processors
    case Done => true
  }

  ghost predicate StartedInOrder(s: State) {
    forall w :: 0 <= w < |s.workers| ==> (s.workers[w] == NotStarted <==> s.pc.Spawning? && s.pc.i <= w)
  }

  ghost predicate JoinedExited(s: State) {
    forall w :: 0 <= w < |s.workers| && (s.pc == Done || (s.pc.Joining? && w < s.pc.i)) ==> s.workers[w] == Exited
  }

  ghost predicate NoInterruptSeen(s: State) {
    && (forall w :: 0 <= w < |s.workers| && s.workers[w].Reporting? ==> !s.workers[w].report.interrupted)
    && (forall i :: 0 <= i < |s.output| ==> !s.output[i].interrupted)
    && (forall i :: 0 <= i < |s.collected| ==> !s.collected[i].interrupted)
  }

  ghost predicate Shape(c: Config, s: State) {
    |s.workers| == c.processors && PcInRange(c, s) && StartedInOrder(s) && JoinedExited(s)
  }

  /**
   The jobs taken so far are the first ones, each in one place; the queue holds the rest in order and
   then the pills; no pill has been taken unless all jobs have.
   */
  ghost predicate Placed(c: Config, s: State) {
    var t, d, e := TakenCount(c, s), Dispatched(c, s), ExitedCount(s.workers);
    && 0 <= t <= d && e <= PillsPut(c, s)
    && s.input == Queue(t, d, PillsPut(c, s) - e)
    && (e > 0 ==> t == |c.jobs|)
    && t == BusyCount(s.workers) + |s.output| + |s.collected|
    && forall id: nat :: Copies(s, id) == B(id < t)
  }

  ghost predicate Booked(c: Config, s: State) {
    && |s.collected| == Collected(c, s)
    && s.tally == TallyOf(c, s.collected)
  }

  ghost predicate Inv(c: Config, s: State) {
    Shape(c, s) && Placed(c, s) && Booked(c, s) && (!s.threadExit ==> NoInterruptSeen(s))
  }

  // ---------------------------------------------------------------- updates of one worker or queue

  lemma {:induction false} WorkerUpdate(ws: seq<Worker>, i: nat, w: Worker)
    requires i < |ws|
    ensures forall id: nat :: HeldCount(ws[i := w], id) + B(Holds(ws[i], id)) == HeldCount(ws, id) + B(Holds(w, id))
    ensures BusyCount(ws[i := w]) + B(Busy(ws[i])) == BusyCount(ws) + B(Busy(w))
    ensures ExitedCount(ws[i := w]) + B(ws[i] == Exited) == ExitedCount(ws) + B(w == Exited)
    decreases |ws|
  {
    hide Holds, Busy, B;
    var k := |ws| - 1;
    if i == k {
      assert ws[i := w][..k] == ws[..k];
    } else {
      WorkerUpdate(ws[..k], i, w);
      assert ws[i := w][..k] == ws[..k][i := w];
    }
  }

  lemma {:induction false} ReportsOfRest(rs: seq<Report>, id: nat)
    requires rs != []
    ensures ReportCount(rs, id) == B(rs[0].id == id) + ReportCount(rs[1..], id)
    decreases |rs|
  {
    hide B;
    var k := |rs| - 1;
    if k > 0 {
      ReportsOfRest(rs[..k], id);
      assert rs[..k][1..] == rs[1..][..k-1];
    } else {
      assert rs[..0] == [] && rs[1..] == [];
    }
  }

  lemma ReportsOfMore(rs: seq<Report>, r: Report, id: nat)
    ensures ReportCount(rs + [r], id) == ReportCount(rs, id) + B(r.id == id)
  {
    assert (rs + [r])[..|rs|] == rs;
  }

  lemma QueueGrows(t: nat, d: nat, k: nat)
    requires t <= d
    ensures Queue(t, d, 0) + [Real(d)] == Queue(t, d + 1, 0)
    ensures Queue(t, d, k) + [Pill] == Queue(t, d, k + 1)
  {
  }

  lemma QueueShrinks(t: nat, d: nat, k: nat)
    requires t <= d
    ensures |Queue(t, d, k)| == d - t + k
    ensures t < d ==> Queue(t, d, k)[0] == Real(t) && Queue(t, d, k)[1..] == Queue(t + 1, d, k)
    ensures t == d && k > 0 ==> Queue(t, d, k)[0] == Pill && Queue(t, d, k)[1..] == Queue(t, d, k - 1)
  {
  }

  lemma {:induction false} NobodyBusy(ws: seq<Worker>)
    requires forall w :: 0 <= w < |ws| ==> !Busy(ws[w])
    ensures BusyCount(ws) == 0 && forall id: nat :: HeldCount(ws, id) == 0
    decreases |ws|
  {
    if ws != [] {
      NobodyBusy(ws[..|ws|-1]);
    }
  }

  lemma {:induction false} ExitedBound(ws: seq<Worker>)
    ensures ExitedCount(ws) <= |ws|
    ensures ExitedCount(ws) == |ws| <==> forall w :: 0 <= w < |ws| ==> ws[w] == Exited
    ensures ExitedCount(ws) == 0 <==> forall w :: 0 <= w < |ws| ==> ws[w] != Exited
    decreases |ws|
  {
    if ws != [] {
      ExitedBound(ws[..|ws|-1]);
    }
  }

  // ---------------------------------------------------------------- every step keeps the invariant

  lemma InitInv(c: Config, s: State)
    requires Init(c, s)
    ensures Inv(c, s)
  {
    NobodyBusy(s.workers);
    ExitedBound(s.workers);
  }

  lemma MainShape(c: Config, s: State, t: State)
    requires Shape(c, s) && MainMoves(c, s, t)
    ensures Shape(c, t)
  {
    hide Counted;
    if s.pc.Spawning? {
      assert forall w :: 0 <= w < |s.workers| && w != s.pc.i ==> t.workers[w] == s.workers[w];
    } else {
      assert t.workers == s.workers;
    }
  }

  lemma WorkerShape(c: Config, s: State, w: nat, t: State)
    requires Shape(c, s) && WorkerMoves(c, s, w, t)
    ensures Shape(c, t)
  {
    assert t.pc == s.pc && |t.workers| == |s.workers| && t.workers[w] != NotStarted;
    assert forall v :: 0 <= v < |s.workers| && v != w ==> t.workers[v] == s.workers[v];
    assert s.workers[w] != Exited && s.workers[w] != NotStarted;
    hide WorkerMoves;
  }

  lemma ShapeKept(c: Config, s: State, t: State)
    requires Shape(c, s) && Moves(c, s, t)
    ensures Shape(c, t)
  {
    hide Shape, MainMoves, WorkerMoves;
    if MainMoves(c, s, t) {
      MainShape(c, s, t);
    } else {
      var w :| WorkerMoves(c, s, w, t);
      WorkerShape(c, s, w, t);
    }
  }

  lemma BookedKept(c: Config, s: State, t: State)
    requires Booked(c, s) && Moves(c, s, t) && PcInRange(c, s)
    ensures Booked(c, t)
  {
    hide Counted;
    if MainMoves(c, s, t) && |t.collected| > |s.collected| {
      assert t.collected[..|s.collected|] == s.collected;
    }
  }

  lemma QuietKept(c: Config, s: State, t: State)
    requires Moves(c, s, t) && (!s.threadExit ==> NoInterruptSeen(s))
    ensures !t.threadExit ==> NoInterruptSeen(t)
  {
    hide Counted;
    if !MainMoves(c, s, t) {
      var w :| WorkerMoves(c, s, w, t);
    }
  }

  /** No step of the main thread takes a job, loses one or copies one. */
  lemma MainCounts(c: Config, s: State, t: State)
    requires |s.workers| == c.processors && StartedInOrder(s) && MainMoves(c, s, t)
    ensures forall id: nat :: Copies(t, id) == Copies(s, id)
    ensures BusyCount(t.workers) + |t.output| + |t.collected| == BusyCount(s.workers) + |s.output| + |s.collected|
    ensures ExitedCount(t.workers) == ExitedCount(s.workers)
  {
    hide HeldCount, BusyCount, ExitedCount, ReportCount, Counted, B;
    if s.pc.Spawning? && s.pc.i < |s.workers| {
      WorkerUpdate(s.workers, s.pc.i, Idle);
    } else if s.pc.Collecting? && s.pc.i < |c.jobs| {
      forall id: nat
        ensures Copies(t, id) == Copies(s, id)
      {
        ReportsOfRest(s.output, id);
        ReportsOfMore(s.collected, s.output[0], id);
      }
    }
  }

  /** What the main thread adds to the queue, if anything, fits behind it. */
  lemma MainQueues(c: Config, s: State, t: State)
    requires PcInRange(c, s) && |s.workers| == c.processors && MainMoves(c, s, t)
    requires ExitedCount(t.workers) == ExitedCount(s.workers) <= PillsPut(c, s)
    requires 0 <= TakenCount(c, s) <= Dispatched(c, s)
    requires s.input == Queue(TakenCount(c, s), Dispatched(c, s), PillsPut(c, s) - ExitedCount(s.workers))
    ensures TakenCount(c, t) == TakenCount(c, s)
    ensures Dispatched(c, s) <= Dispatched(c, t) && PillsPut(c, s) <= PillsPut(c, t)
    ensures t.input == Queue(TakenCount(c, t), Dispatched(c, t), PillsPut(c, t) - ExitedCount(t.workers))
  {
    hide BusyCount, ExitedCount, Queue, Counted, B;
    QueueGrows(TakenCount(c, s), Dispatched(c, s), PillsPut(c, s) - ExitedCount(s.workers));
  }

  lemma MainPlaces(c: Config, s: State, t: State)
    requires Shape(c, s) && Placed(c, s) && MainMoves(c, s, t)
    ensures Placed(c, t)
  {
    hide MainStep, Queue, Copies, TakenCount, Dispatched, PillsPut, BusyCount, ExitedCount, Holds, B;
    MainCounts(c, s, t);
    MainQueues(c, s, t);
    hide BusyCount, ExitedCount, Queue, Copies, Counted, StartedInOrder, JoinedExited, B, MainMoves, TakenCount,
      Dispatched, PillsPut, Shape, PcInRange;
  }

  /** A worker copies or loses no job; only an idle one can take a job. */
  lemma WorkerCounts(c: Config, s: State, w: nat, t: State)
    requires WorkerMoves(c, s, w, t)
    ensures |t.workers| == |s.workers|
    ensures forall id: nat :: Copies(t, id) == Copies(s, id) + B(s.workers[w] == Idle && Holds(t.workers[w], id))
    ensures BusyCount(t.workers) + |t.output| + |t.collected|
         == BusyCount(s.workers) + |s.output| + |s.collected| + B(s.workers[w] == Idle && Busy(t.workers[w]))
    ensures ExitedCount(t.workers) == ExitedCount(s.workers) + B(t.workers[w] == Exited)
  {
    hide HeldCount, BusyCount, ExitedCount, ReportCount;
    WorkerUpdate(s.workers, w, t.workers[w]);
    if s.workers[w].Reporting? {
      forall id: nat
        ensures Copies(t, id) == Copies(s, id)
      {
        ReportsOfMore(s.output, s.workers[w].report, id);
      }
    }
  }

  /** A worker takes the next job of the queue, or, only when all jobs are taken, a pill. */
  lemma WorkerQueues(c: Config, s: State, w: nat, t: State)
    requires PcInRange(c, s) && WorkerMoves(c, s, w, t)
    requires ExitedCount(t.workers) == ExitedCount(s.workers) + B(t.workers[w] == Exited)
    requires ExitedCount(s.workers) <= PillsPut(c, s) && 0 <= TakenCount(c, s) <= Dispatched(c, s)
    requires s.input == Queue(TakenCount(c, s), Dispatched(c, s), PillsPut(c, s) - ExitedCount(s.workers))
    ensures ExitedCount(t.workers) <= PillsPut(c, s)
    ensures TakenCount(c, t) == TakenCount(c, s) + B(s.workers[w] == Idle && Busy(t.workers[w])) <= Dispatched(c, s)
    ensures t.input == Queue(TakenCount(c, t), Dispatched(c, t), PillsPut(c, t) - ExitedCount(t.workers))
    ensures t.workers[w] == Exited ==> TakenCount(c, t) == |c.jobs|
    ensures s.workers[w] == Idle && Busy(t.workers[w]) ==> t.workers[w] == Holding(TakenCount(c, s))
  {
    hide ExitedCount, Queue;
    QueueShrinks(TakenCount(c, s), Dispatched(c, s), PillsPut(c, s) - ExitedCount(s.workers));
  }

  lemma WorkerPlaces(c: Config, s: State, w: nat, t: State)
    requires Shape(c, s) && Placed(c, s) && WorkerMoves(c, s, w, t)
    ensures Placed(c, t)
  {
    WorkerCounts(c, s, w, t);
    WorkerQueues(c, s, w, t);
    hide BusyCount, ExitedCount, Queue, Copies, StartedInOrder, JoinedExited, TakenCount, PcInRange;
    assert t.pc == s.pc;
    hide WorkerMoves;
  }

  lemma NextKeeps(c: Config, s: State, t: State)
    requires Inv(c, s) && Next(c, s, t)
    ensures Inv(c, t)
  {
    hide Shape, Placed, NoInterruptSeen, MainMoves, WorkerMoves;
    if Interrupt(s, t) {
      InterruptKeeps(c, s, t);
    } else {
      InRange(c, s);
      ShapeKept(c, s, t);
      BookedKept(c, s, t);
      QuietKept(c, s, t);
      if MainMoves(c, s, t) {
        MainPlaces(c, s, t);
      } else {
        var w :| WorkerMoves(c, s, w, t);
        WorkerPlaces(c, s, w, t);
      }
    }
  }

  lemma InRange(c: Config, s: State)
    requires Shape(c, s)
    ensures PcInRange(c, s)
  {
  }

  lemma InterruptKeeps(c: Config, s: State, t: State)
    requires Inv(c, s) && Interrupt(s, t)
    ensures Inv(c, t)
  {
    hide HeldCount, BusyCount, ExitedCount, ReportCount, Queue, TallyOf;
    assert forall id: nat :: Copies(t, id) == Copies(s, id);
  }

  /** Every state of every run. */
  lemma {:induction false} RunInv(c: Config, run: seq<State>, i: nat)
    requires IsRun(c, run) && i < |run|
    ensures Inv(c, run[i])
  {
    if i == 0 {
      InitInv(c, run[0]);
    } else {
      RunInv(c, run, i - 1);
      NextKeeps(c, run[i-1], run[i]);
    }
  }

  // ---------------------------------------------------------------- termination

  function WorkLeft(w: Worker): nat {
    match w
    case Holding(_) => 3
    case Running(_) => 2
    case Reporting(_) => 1
    case _ => 0
  }

  function AllWorkLeft(ws: seq<Worker>): nat {
    if ws == [] then 0 else AllWorkLeft(ws[..|ws|-1]) + WorkLeft(ws[|ws|-1])
  }

  /** Steps the main thread has still to make. */
  function MainLeft(c: Config, pc: MainPc): int {
    var n, k := |c.jobs|, c.processors;
    match pc
    case Spawning(i) => 3 * k + 2 * n + 5 - i
    case Dispatching(i) => 2 * k + 2 * n + 4 - i
    case Poisoning(i) => 2 * k + n + 3 - i
    case Collecting(i) => k + n + 2 - i
    case Joining(i) => k + 1 - i
    case Done => 0
  }

  /** An untaken job costs a worker four steps, an untaken pill one; the interrupt comes at most once. */
  function Measure(c: Config, s: State): int {
    MainLeft(c, s.pc) + 4 * (|c.jobs| - TakenCount(c, s)) + AllWorkLeft(s.workers)
    + (c.processors - ExitedCount(s.workers)) + B(!s.threadExit)
  }

  lemma {:induction false} WorkUpdate(ws: seq<Worker>, i: nat, w: Worker)
    requires i < |ws|
    ensures AllWorkLeft(ws[i := w]) + WorkLeft(ws[i]) == AllWorkLeft(ws) + WorkLeft(w)
    decreases |ws|
  {
    hide WorkLeft;
    var k := |ws| - 1;
    if i == k {
      assert ws[i := w][..k] == ws[..k];
    } else {
      WorkUpdate(ws[..k], i, w);
      assert ws[i := w][..k] == ws[..k][i := w];
    }
  }

  lemma MeasureNatural(c: Config, s: State)
    requires Inv(c, s)
    ensures Measure(c, s) >= 0
  {
    ExitedBound(s.workers);
  }

  lemma MainIdles(c: Config, s: State, t: State)
    requires StartedInOrder(s) && |s.workers| == c.processors && MainMoves(c, s, t)
    ensures AllWorkLeft(t.workers) == AllWorkLeft(s.workers)
  {
    hide AllWorkLeft, Counted;
    if s.pc.Spawning? && s.pc.i < |s.workers| {
      WorkUpdate(s.workers, s.pc.i, Idle);
    }
  }

  lemma MainAdvances(c: Config, s: State, t: State)
    requires PcInRange(c, s) && |s.workers| == c.processors && MainMoves(c, s, t)
    ensures MainLeft(c, t.pc) < MainLeft(c, s.pc) && t.threadExit == s.threadExit
  {
    hide Counted;
  }

  lemma MainProgress(c: Config, s: State, t: State)
    requires Inv(c, s) && MainMoves(c, s, t)
    ensures Measure(c, t) < Measure(c, s)
  {
    MainIdles(c, s, t);
    MainAdvances(c, s, t);
    MainCounts(c, s, t);
    MainQueues(c, s, t);
    hide MainMoves, Inv, AllWorkLeft, ExitedCount, TakenCount, MainLeft;
  }

  lemma WorkerProgress(c: Config, s: State, w: nat, t: State)
    requires Inv(c, s) && WorkerMoves(c, s, w, t)
    ensures Measure(c, t) < Measure(c, s)
  {
    WorkerCounts(c, s, w, t);
    WorkerQueues(c, s, w, t);
    WorkUpdate(s.workers, w, t.workers[w]);
    hide ExitedCount, BusyCount, TakenCount, Placed, Booked, NoInterruptSeen, AllWorkLeft;
  }

  lemma NextProgress(c: Config, s: State, t: State)
    requires Inv(c, s) && Next(c, s, t)
    ensures Measure(c, t) < Measure(c, s)
  {
    if !Interrupt(s, t) {
      hide Inv, Measure;
      if MainMoves(c, s, t) {
        MainProgress(c, s, t);
      } else {
        var w :| WorkerMoves(c, s, w, t);
        WorkerProgress(c, s, w, t);
      }
    }
  }

  /** Every run is finite: no schedule makes more than 6 steps per job and 4 per worker, and a few. */
  lemma {:induction false} RunBound(c: Config, run: seq<State>)
    requires IsRun(c, run)
    ensures |run| + Measure(c, run[|run|-1]) <= 6 * |c.jobs| + 4 * c.processors + 7
    ensures |run| <= 6 * |c.jobs| + 4 * c.processors + 7
    decreases |run|
  {
    var k := |run| - 1;
    RunInv(c, run, k);
    MeasureNatural(c, run[k]);
    if k == 0 {
      FullMeasure(c, run[0]);
    } else {
      hide Measure, Inv, Next;
      var init := run[..k];
      assert IsRun(c, init) && init[k-1] == run[k-1];
      RunBound(c, init);
      RunInv(c, run, k - 1);
      NextProgress(c, run[k-1], run[k]);
    }
  }

  lemma FullMeasure(c: Config, s: State)
    requires Init(c, s)
    ensures Measure(c, s) == 6 * |c.jobs| + 4 * c.processors + 6
  {
    ExitedBound(s.workers);
    IdleWork(s.workers);
  }

  lemma {:induction false} IdleWork(ws: seq<Worker>)
    requires forall w :: 0 <= w < |ws| ==> !Busy(ws[w])
    ensures AllWorkLeft(ws) == 0
    decreases |ws|
  {
    if ws != [] {
      IdleWork(ws[..|ws|-1]);
    }
  }

  // ---------------------------------------------------------------- no deadlock

  ghost predicate Stuck(c: Config, s: State) {
    forall t :: !Moves(c, s, t)
  }

  /** A worker that holds a job can go on, and an idle one can if the queue is not empty. */
  lemma WorkerCanMove(c: Config, s: State, w: nat)
    requires w < |s.workers| && (Busy(s.workers[w]) || (s.workers[w] == Idle && s.input != []))
    ensures !Stuck(c, s)
  {
    var t := WorkerStep(c, s, w)[0];
    assert WorkerMoves(c, s, w, t);
    assert Moves(c, s, t);
  }

  lemma MainCanMove(c: Config, s: State)
    requires MainStep(c, s) != []
    ensures !Stuck(c, s)
  {
    assert MainMoves(c, s, MainStep(c, s)[0]);
    assert Moves(c, s, MainStep(c, s)[0]);
  }

  lemma QueueNotEmpty(t: nat, d: nat, k: nat)
    requires t <= d && (t < d || k > 0)
    ensures Queue(t, d, k) != []
  {
  }

  /** While the collector waits for a report, some worker can move. */
  lemma CollectorIsFed(c: Config, s: State)
    requires Inv(c, s) && s.pc.Collecting? && s.pc.i < |c.jobs| && s.output == [] && c.processors > 0
    ensures !Stuck(c, s)
  {
    hide Queue, Copies, BusyCount, ExitedCount, Booked, NoInterruptSeen, Busy;
    if w :| 0 <= w < |s.workers| && Busy(s.workers[w]) {
      WorkerCanMove(c, s, w);
    } else {
      NobodyBusy(s.workers);
      ExitedBound(s.workers);
      CollectedSoFar(c, s);
      assert TakenCount(c, s) < |c.jobs|;
      QueueNotEmpty(TakenCount(c, s), |c.jobs|, PillsPut(c, s) - ExitedCount(s.workers));
      IdleWorker(c, s, 0);
      WorkerCanMove(c, s, 0);
    }
  }

  lemma CollectedSoFar(c: Config, s: State)
    requires Inv(c, s)
    ensures |s.collected| == Collected(c, s)
  {
  }

  lemma IdleWorker(c: Config, s: State, w: nat)
    requires Inv(c, s) && w < |s.workers| && !s.pc.Spawning? && !Busy(s.workers[w]) && s.workers[w] != Exited
    ensures s.workers[w] == Idle
  {
  }

  /** While main waits to join worker i, that worker can move. */
  lemma JoinedWillExit(c: Config, s: State)
    requires Inv(c, s) && s.pc.Joining? && s.pc.i < |s.workers| && s.workers[s.pc.i] != Exited
    ensures !Stuck(c, s)
  {
    hide Queue, Copies, BusyCount, ExitedCount, Booked, NoInterruptSeen, Busy;
    var w := s.pc.i;
    if !Busy(s.workers[w]) {
      ExitedBound(s.workers);
      QueueNotEmpty(TakenCount(c, s), |c.jobs|, PillsPut(c, s) - ExitedCount(s.workers));
      IdleWorker(c, s, w);
    }
    WorkerCanMove(c, s, w);
  }

  lemma NeverStuck(c: Config, s: State)
    requires Inv(c, s) && s.pc != Done && (c.processors > 0 || c.jobs == [])
    ensures !Stuck(c, s)
  {
    if MainStep(c, s) != [] {
      MainCanMove(c, s);
    } else if s.pc.Collecting? {
      CollectorIsFed(c, s);
    } else {
      JoinedWillExit(c, s);
    }
  }

  lemma {:induction false} NobodyReports(c: Config, run: seq<State>, i: nat)
    requires IsRun(c, run) && i < |run| && c.processors == 0
    ensures run[i].output == [] && run[i].collected == []
  {
    if i > 0 {
      NobodyReports(c, run, i - 1);
      RunInv(c, run, i - 1);
    }
  }

  /** Any run can be carried on until it is stuck. */
  lemma {:induction false} RunOn(c: Config, run: seq<State>) returns (full: seq<State>)
    requires IsRun(c, run)
    ensures IsRun(c, full) && Stuck(c, full[|full|-1])
    decreases 6 * |c.jobs| + 4 * c.processors + 7 - |run|
  {
    var last := run[|run|-1];
    RunBound(c, run);
    if t :| Moves(c, last, t) {
      var longer := run + [t];
      assert Next(c, longer[|run|-1], longer[|run|]);
      RunBound(c, longer);
      full := RunOn(c, longer);
    } else {
      full := run;
    }
  }

  ghost predicate DeadlockFree(c: Config) {
    forall run: seq<State> :: IsRun(c, run) && Stuck(c, run[|run|-1]) ==> run[|run|-1].pc == Done
  }

  /** Runs get stuck only when they are done, exactly if there is a worker or nothing to do. */
  lemma DeadlockFreeIff(c: Config)
    ensures DeadlockFree(c) <==> c.processors > 0 || c.jobs == []
  {
    if c.processors > 0 || c.jobs == [] {
      forall run: seq<State> | IsRun(c, run) && Stuck(c, run[|run|-1])
        ensures run[|run|-1].pc == Done
      {
        RunInv(c, run, |run| - 1);
        if run[|run|-1].pc != Done {
          NeverStuck(c, run[|run|-1]);
        }
      }
    } else {
      var s := State(Spawning(0), [], seq(c.processors, _ => NotStarted), [], [], Tally(0, 0, 0, 0, 0), false);
      var run := RunOn(c, [s]);
      NobodyReports(c, run, |run| - 1);
      RunInv(c, run, |run| - 1);
      CollectedSoFar(c, run[|run|-1]);
    }
  }

  // ---------------------------------------------------------------- the end of a run

  datatype Verdict = Pass | Fail | Valgr | Crash | Skip | Break

  function VerdictOf(c: Config, r: Report): Verdict {
    if r.interrupted || r.id >= |c.jobs| then Break
    else if c.jobs[r.id].isSkip then Skip
    else match c.jobs[r.id].code
      case 0 => Pass
      case 1 => Fail
      case 2 => Valgr
      case _ => Crash
  }

  function VerdictCount(c: Config, rs: seq<Report>, v: Verdict): nat {
    if rs == [] then 0 else VerdictCount(c, rs[..|rs|-1], v) + B(VerdictOf(c, rs[|rs|-1]) == v)
  }

  lemma {:induction false} TallyCounts(c: Config, rs: seq<Report>)
    ensures TallyOf(c, rs) == Tally(VerdictCount(c, rs, Pass), VerdictCount(c, rs, Fail), VerdictCount(c, rs, Valgr),
                                    VerdictCount(c, rs, Crash), VerdictCount(c, rs, Skip))
    ensures VerdictCount(c, rs, Pass) + VerdictCount(c, rs, Fail) + VerdictCount(c, rs, Valgr)
          + VerdictCount(c, rs, Crash) + VerdictCount(c, rs, Skip) + VerdictCount(c, rs, Break) == |rs|
    decreases |rs|
  {
    if rs != [] {
      TallyCounts(c, rs[..|rs|-1]);
    }
  }

  lemma {:induction false} AllGoodIff(c: Config, rs: seq<Report>)
    ensures VerdictCount(c, rs, Pass) + VerdictCount(c, rs, Skip) <= |rs|
    ensures VerdictCount(c, rs, Pass) + VerdictCount(c, rs, Skip) == |rs|
       <==> forall i :: 0 <= i < |rs| ==> VerdictOf(c, rs[i]) in [Pass, Skip]
    decreases |rs|
  {
    hide VerdictOf;
    if rs != [] {
      AllGoodIff(c, rs[..|rs|-1]);
    }
  }

  /** Lines 1800-1803. */
  function ExitCode(c: Config, s: State): int {
    if s.tally.passed + s.tally.skipped == |c.jobs| then 0 else 1
  }

  lemma {:induction false} ReportIsThere(rs: seq<Report>, id: nat) returns (k: nat)
    requires ReportCount(rs, id) > 0
    ensures k < |rs| && rs[k].id == id
    decreases |rs|
  {
    k := |rs| - 1;
    if rs[k].id != id {
      k := ReportIsThere(rs[..k], id);
    }
  }

  lemma {:induction false} Without(c: Config, rs: seq<Report>, k: nat)
    requires k < |rs|
    ensures forall v :: VerdictCount(c, rs, v) == VerdictCount(c, rs[..k] + rs[k+1..], v) + B(VerdictOf(c, rs[k]) == v)
    ensures forall id: nat :: ReportCount(rs, id) == ReportCount(rs[..k] + rs[k+1..], id) + B(rs[k].id == id)
    decreases |rs|
  {
    hide VerdictOf, B;
    var n := |rs| - 1;
    var rest := rs[..k] + rs[k+1..];
    if k == n {
      assert rest == rs[..n];
    } else {
      Without(c, rs[..n], k);
      assert rest[..n-1] == rs[..n][..k] + rs[..n][k+1..];
    }
  }

  /** Reports of the same jobs, without interrupts, give the same counts in any order. */
  lemma {:induction false} OrderDoesNotMatter(c: Config, a: seq<Report>, b: seq<Report>, v: Verdict)
    requires forall id: nat :: ReportCount(a, id) == ReportCount(b, id)
    requires forall i :: 0 <= i < |a| ==> !a[i].interrupted
    requires forall i :: 0 <= i < |b| ==> !b[i].interrupted
    ensures VerdictCount(c, a, v) == VerdictCount(c, b, v)
    decreases |a|
  {
    hide VerdictOf;
    if a == [] {
      if b != [] {
        var last := b[|b|-1].id;
        assert ReportCount(b, last) > 0;
        assert ReportCount(a, last) == 0;
        assert false;
      }
    } else {
      var n := |a| - 1;
      var x := a[n];
      assert ReportCount(a, x.id) > 0;
      var k := ReportIsThere(b, x.id);
      assert b[k] == x;
      Without(c, b, k);
      var rest := b[..k] + b[k+1..];
      forall id: nat
        ensures ReportCount(a[..n], id) == ReportCount(rest, id)
      {
        assert ReportCount(a, id) == ReportCount(a[..n], id) + B(x.id == id);
        assert ReportCount(b, id) == ReportCount(rest, id) + B(x.id == id);
      }
      OrderDoesNotMatter(c, a[..n], rest, v);
    }
  }

  /** The reports of a run that handles the jobs one by one. */
  function InOrder(n: nat): seq<Report> {
    seq(n, i requires 0 <= i < n => Report(i, false))
  }

  lemma {:induction false} InOrderOnce(n: nat)
    ensures forall id: nat :: ReportCount(InOrder(n), id) == B(id < n)
  {
    if n > 0 {
      InOrderOnce(n - 1);
      assert InOrder(n)[..n-1] == InOrder(n - 1);
    }
  }

  /** At the end every job has been collected once, all pills are taken and both queues are empty. */
  lemma AtTheEnd(c: Config, s: State)
    requires Inv(c, s) && s.pc == Done
    ensures |s.collected| == |c.jobs| && s.output == [] && s.input == []
    ensures forall id: nat :: ReportCount(s.collected, id) == B(id < |c.jobs|)
    ensures forall w :: 0 <= w < |s.workers| ==> s.workers[w] == Exited
    ensures ExitedCount(s.workers) == c.processors
  {
    hide Copies, Booked, NoInterruptSeen, Queue;
    CollectedSoFar(c, s);
    ExitedBound(s.workers);
    NobodyBusy(s.workers);
    QueueShrinks(|c.jobs|, |c.jobs|, 0);
    forall id: nat
      ensures ReportCount(s.collected, id) == B(id < |c.jobs|)
    {
      assert Copies(s, id) == B(id < TakenCount(c, s));
      CopiesAre(s, id);
    }
  }

  lemma CopiesAre(s: State, id: nat)
    ensures Copies(s, id) == HeldCount(s.workers, id) + ReportCount(s.output, id) + ReportCount(s.collected, id)
  {
  }

  /** The counts add up, and the exit code is 0 exactly when every job passed or was skipped. */
  lemma FinalCounts(c: Config, run: seq<State>)
    requires IsRun(c, run) && run[|run|-1].pc == Done
    ensures var s := run[|run|-1];
      && s.tally.passed + s.tally.failed + s.tally.valgrind + s.tally.crashed + s.tally.skipped
         + VerdictCount(c, s.collected, Break) == |c.jobs|
      && (ExitCode(c, s) == 0 <==>
            forall i :: 0 <= i < |s.collected| ==> VerdictOf(c, s.collected[i]) in [Pass, Skip])
  {
    var s := run[|run|-1];
    RunInv(c, run, |run| - 1);
    AtTheEnd(c, s);
    TallyCounts(c, s.collected);
    AllGoodIff(c, s.collected);
  }

  /** Without an interrupt every schedule ends with the counts of a run that handles the jobs in order. */
  lemma SameCountsForAllSchedules(c: Config, run: seq<State>)
    requires IsRun(c, run) && run[|run|-1].pc == Done && !run[|run|-1].threadExit
    ensures run[|run|-1].tally == TallyOf(c, InOrder(|c.jobs|))
  {
    var s := run[|run|-1];
    RunInv(c, run, |run| - 1);
    AtTheEnd(c, s);
    InOrderOnce(|c.jobs|);
    TallyCounts(c, s.collected);
    TallyCounts(c, InOrder(|c.jobs|));
    forall v
      ensures VerdictCount(c, s.collected, v) == VerdictCount(c, InOrder(|c.jobs|), v)
    {
      OrderDoesNotMatter(c, s.collected, InOrder(|c.jobs|), v);
    }
  }

  // ---------------------------------------------------------------- what the states of a run look like

  function InputCount(q: seq<Item>, id: nat): nat {
    if q == [] then 0 else InputCount(q[..|q|-1], id) + B(q[|q|-1] == Real(id))
  }

  lemma {:induction false} InputCountOfQueue(t: nat, d: nat, k: nat, id: nat)
    requires t <= d
    ensures InputCount(Queue(t, d, k), id) == B(t <= id < d)
    decreases d, k
  {
    var q := Queue(t, d, k);
    if k > 0 {
      InputCountOfQueue(t, d, k - 1, id);
      assert q[..|q|-1] == Queue(t, d, k - 1);
    } else if t < d {
      InputCountOfQueue(t, d - 1, 0, id);
      assert q[..|q|-1] == Queue(t, d - 1, 0);
    }
  }

  /** A dispatched job is in exactly one of: input queue, a worker, output queue, collected; others nowhere. */
  lemma OnePlace(c: Config, run: seq<State>, i: nat, id: nat)
    requires IsRun(c, run) && i < |run|
    ensures InputCount(run[i].input, id) + HeldCount(run[i].workers, id) + ReportCount(run[i].output, id)
          + ReportCount(run[i].collected, id) == B(id < Dispatched(c, run[i]))
  {
    RunInv(c, run, i);
    var s := run[i];
    hide IsRun, Shape, Booked, NoInterruptSeen, Queue;
    assert Copies(s, id) == B(id < TakenCount(c, s));
    InputCountOfQueue(TakenCount(c, s), Dispatched(c, s), PillsPut(c, s) - ExitedCount(s.workers), id);
  }

  /** A worker takes a pill, and so exits, only when all jobs are dispatched and none is left in the queue. */
  lemma PillsComeLast(c: Config, run: seq<State>, w: nat, t: State, id: nat)
    requires IsRun(c, run) && WorkerMoves(c, run[|run|-1], w, t) && w < |t.workers| && t.workers[w] == Exited
    ensures InputCount(run[|run|-1].input, id) == 0 && Dispatched(c, run[|run|-1]) == |c.jobs|
  {
    var s := run[|run|-1];
    RunInv(c, run, |run| - 1);
    hide IsRun, Shape, Booked, NoInterruptSeen, Queue, Copies, InputCount;
    InRange(c, s);
    WorkerCounts(c, s, w, t);
    WorkerQueues(c, s, w, t);
    InputCountOfQueue(TakenCount(c, s), Dispatched(c, s), PillsPut(c, s) - ExitedCount(s.workers), id);
  }

  /** Lines 1590-1619 and 1800-1803 as the main thread runs them, given what it gets from the output queue. */
  method CollectResults(c: Config, outputQueue: seq<Report>) returns (tally: Tally, exitCode: int)
    requires |outputQueue| == |c.jobs| && forall i :: 0 <= i < |outputQueue| ==> outputQueue[i].id < |c.jobs|
    ensures tally.passed == VerdictCount(c, outputQueue, Pass) && tally.failed == VerdictCount(c, outputQueue, Fail)
    ensures tally.valgrind == VerdictCount(c, outputQueue, Valgr)
    ensures tally.crashed == VerdictCount(c, outputQueue, Crash)
    ensures tally.skipped == VerdictCount(c, outputQueue, Skip)
    ensures exitCode == 0 <==> forall i :: 0 <= i < |outputQueue| ==> VerdictOf(c, outputQueue[i]) in [Pass, Skip]
  {
    var passedTests, failedTests, crashedTests, valgrindErrors, skippedTests := 0, 0, 0, 0, 0;
    for i := 0 to |c.jobs|
      invariant Tally(passedTests, failedTests, valgrindErrors, crashedTests, skippedTests)
             == TallyOf(c, outputQueue[..i])
    {
      var report := outputQueue[i];
      assert outputQueue[..i+1][..i] == outputQueue[..i];
      if report.interrupted {
        continue;
      }
      var job := c.jobs[report.id];
      if job.isSkip {
        skippedTests := skippedTests + 1;
      } else {
        if job.code == 0 {
          passedTests := passedTests + 1;
        } else if job.code == 1 {
          failedTests := failedTests + 1;
        } else if job.code == 2 {
          valgrindErrors := valgrindErrors + 1;
        } else {
          crashedTests := crashedTests + 1;
        }
      }
    }
    assert outputQueue[..|c.jobs|] == outputQueue;
    TallyCounts(c, outputQueue);
    AllGoodIff(c, outputQueue);
    tally := Tally(passedTests, failedTests, valgrindErrors, crashedTests, skippedTests);
    exitCode := if passedTests + skippedTests == |c.jobs| then 0 else 1;
  }
}
