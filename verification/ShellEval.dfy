/**
 What Pipeline.run of shellcmd.py does, as an evaluator: a pipeline is first read as stages joined
 by && and ||, without looking at exit codes; then the stages are evaluated, nested to the right.
 */
module ShellEval {
  import opened Basics
  import opened ShellSyntax

  /** os.path.join. */
  type PathJoin = (string, string) -> string

  /** code(i) is the exit code of the i-th process that run starts. */
  type ExitCodes = nat -> int

  /** A standard stream of a process; PipeFrom(i) is the output of the i-th process. */
  datatype Stream = Inherited | Handle(id: nat) | DevNull | NewPipe | PipeFrom(proc: nat) | SameAsStdout

  datatype Event =
    | OpenRead(id: nat, name: string)
    | OpenWrite(id: nat, name: string)
    | Launch(argv: seq<string>, stdin: Stream, stdout: Stream, stderr: Stream,
             env: Option<map<string, string>>, cwd: Option<string>)
    | Wait(proc: nat)
    | Close(id: nat)

  /** IndexError: a last Chdir has no operator after it; AttributeError: a Chdir without a dir. */
  datatype Outcome = Returned(code: int) | IndexError | AttributeError | AssertionFailed | FellOff

  datatype EvalResult = EvalResult(events: seq<Event>, outcome: Outcome)

  // ---------------------------------------------------------------- stages

  /** A command with the directory it runs in. */
  datatype Cmd = Cmd(node: Node, cwd: string)

  /** Stages, the operators between them, and the Chdir error that cuts the last stage short, if any. */
  datatype AndOr = AndOr(stages: seq<seq<Cmd>>, ops: seq<Node>, broken: Option<Outcome>)

  /** cur holds the commands of the stage that has begun. */
  function Structure(p: seq<Node>, cwd: string, cur: seq<Cmd>, join: PathJoin): AndOr
    requires WellFormed(p)
    decreases p
  {
    if p[0].Chdir? then
      if |p| == 1 then AndOr([cur], [], Some(IndexError))
      else if p[0].dir == None then AndOr([cur], [], Some(AttributeError))
      else Structure(p[2..], join(cwd, p[0].dir.value), cur, join)
    else
      var stage := cur + [Cmd(p[0], cwd)];
      if |p| == 1 then AndOr([stage], [], None)
      else if p[1] == PipeOp then Structure(p[2..], cwd, stage, join)
      else
        var rest := Structure(p[2..], cwd, [], join);
        AndOr([stage] + rest.stages, [p[1]] + rest.ops, rest.broken)
  }

  predicate Commands(cmds: seq<Cmd>) {
    forall j :: 0 <= j < |cmds| ==> cmds[j].node.Command?
  }

  /** One operator between two stages, and only the last stage may be broken off. */
  predicate Proper(a: AndOr) {
    && |a.stages| == |a.ops| + 1
    && (forall i :: 0 <= i < |a.ops| ==> a.ops[i] in [And, Or])
    && (forall i :: 0 <= i < |a.stages| - 1 ==> a.stages[i] != [])
    && (a.broken == None ==> a.stages[|a.stages|-1] != [])
    && (a.broken.Some? ==> a.broken.value in [IndexError, AttributeError])
    && forall i :: 0 <= i < |a.stages| ==> Commands(a.stages[i])
  }

  lemma {:induction false} StructureIsProper(p: seq<Node>, cwd: string, cur: seq<Cmd>, join: PathJoin)
    requires WellFormed(p) && Commands(cur)
    ensures Proper(Structure(p, cwd, cur, join))
    decreases p
  {
    if p[0].Chdir? {
      if |p| > 1 && p[0].dir.Some? {
        StructureIsProper(p[2..], join(cwd, p[0].dir.value), cur, join);
      }
    } else if |p| > 1 {
      if p[1] == PipeOp {
        StructureIsProper(p[2..], cwd, cur + [Cmd(p[0], cwd)], join);
      } else {
        StructureIsProper(p[2..], cwd, [], join);
      }
    }
  }

  /** No Chdir lacks its dir, and none is last. */
  predicate Runnable(p: seq<Node>) {
    p != [] && !p[|p|-1].Chdir? && forall i :: 0 <= i < |p| && p[i].Chdir? ==> p[i].dir.Some?
  }

  lemma RunnableTail(p: seq<Node>)
    requires WellFormed(p) && Runnable(p) && |p| > 1
    ensures WellFormed(p[2..]) && Runnable(p[2..])
  {
    assert forall i :: 2 <= i < |p| ==> p[i] == p[2..][i-2];
  }

  lemma {:induction false} RunnableIffWhole(p: seq<Node>, cwd: string, cur: seq<Cmd>, join: PathJoin)
    requires WellFormed(p)
    ensures Structure(p, cwd, cur, join).broken == None <==> Runnable(p)
    decreases p
  {
    if |p| > 1 {
      assert forall i :: 2 <= i < |p| ==> p[i] == p[2..][i-2];
      assert Runnable(p) <==> Runnable(p[2..]) && (p[0].Chdir? ==> p[0].dir.Some?);
      if p[0].Chdir? {
        if p[0].dir.Some? {
          RunnableIffWhole(p[2..], join(cwd, p[0].dir.value), cur, join);
        }
      } else if p[1] == PipeOp {
        RunnableIffWhole(p[2..], cwd, cur + [Cmd(p[0], cwd)], join);
      } else {
        RunnableIffWhole(p[2..], cwd, [], join);
      }
    }
  }

  // ---------------------------------------------------------------- one stage

  predicate IsDevNull(name: string) {
    name in ["NUL:", "/dev/null"]
  }

  /** What a redirection to a file stands for when id is the next free handle. */
  function OutStream(t: Target, id: nat): Stream {
    match t
    case Inherit => Inherited
    case Pipe => NewPipe
    case Stdout => SameAsStdout
    case File(name) => if IsDevNull(name) then DevNull else Handle(id)
  }

  function OutOpens(t: Target, id: nat): seq<Event> {
    if t.File? && !IsDevNull(t.name) then [OpenWrite(id, t.name)] else []
  }

  /** A command after a pipe reads that pipe, whatever its own "<" says. */
  function InOpens(c: Cmd, piped: bool, id: nat): seq<Event>
    requires c.node.Command?
  {
    if !piped && c.node.stdin.File? then [OpenRead(id, c.node.stdin.name)] else []
  }

  function InStream(c: Cmd, piped: bool, n: nat, id: nat): Stream
    requires c.node.Command? && (piped ==> n > 0)
  {
    if piped then PipeFrom(n - 1) else if c.node.stdin.File? then Handle(id) else Inherited
  }

  /** Opening the files of a command and launching it as process n; f is the next free handle. */
  function CmdEvents(c: Cmd, piped: bool, n: nat, f: nat): seq<Event>
    requires c.node.Command? && (piped ==> n > 0)
  {
    var ins := InOpens(c, piped, f);
    var outs := OutOpens(c.node.stdout, f + |ins|);
    var errs := OutOpens(c.node.stderr, f + |ins| + |outs|);
    ins + outs + errs + [Launch(c.node.argv, InStream(c, piped, n, f), OutStream(c.node.stdout, f + |ins|),
      OutStream(c.node.stderr, f + |ins| + |outs|), c.node.env, if c.cwd == "." then None else Some(c.cwd))]
  }

  /** All but the launch are opens. */
  function CmdOpens(c: Cmd, piped: bool): nat
    requires c.node.Command?
  {
    |InOpens(c, piped, 0)| + |OutOpens(c.node.stdout, 0)| + |OutOpens(c.node.stderr, 0)|
  }

  function StageOpens(cmds: seq<Cmd>): nat
    requires Commands(cmds)
  {
    if cmds == [] then 0
    else StageOpens(cmds[..|cmds|-1]) + CmdOpens(cmds[|cmds|-1], |cmds| > 1)
  }

  /** Each command reads the output of the one before it in the stage. */
  function Launches(cmds: seq<Cmd>, n: nat, f: nat): seq<Event>
    requires Commands(cmds)
  {
    if cmds == [] then []
    else
      var k := |cmds| - 1;
      Launches(cmds[..k], n, f) + CmdEvents(cmds[k], k > 0, n + k, f + StageOpens(cmds[..k]))
  }

  function Waits(n: nat, k: nat): seq<Event> {
    seq(k, i requires 0 <= i < k => Wait(n + i))
  }

  function Closes(f: nat, k: nat): seq<Event> {
    seq(k, i requires 0 <= i < k => Close(f + i))
  }

  /** Launch everything, wait for everything, then close every file the stage opened. */
  function StageEvents(cmds: seq<Cmd>, n: nat, f: nat): seq<Event>
    requires Commands(cmds)
  {
    Launches(cmds, n, f) + Waits(n, |cmds|) + Closes(f, StageOpens(cmds))
  }

  // ---------------------------------------------------------------- AND-OR lists

  predicate Proceeds(op: Node, status: int) {
    if op == And then status == 0 else status != 0
  }

  /** The rest after the first stage and operator. */
  function Tail(a: AndOr): AndOr
    requires |a.stages| > 0 && |a.ops| > 0
  {
    AndOr(a.stages[1..], a.ops[1..], a.broken)
  }

  lemma TailIsProper(a: AndOr)
    requires Proper(a) && a.ops != []
    ensures Proper(Tail(a)) && Commands(a.stages[0]) && a.stages[0] != []
  {
    assert forall i :: 0 <= i < |a.stages| - 1 ==> Tail(a).stages[i] == a.stages[i+1];
  }

  /** Right-nested: a stage whose status does not let the operator proceed ends the whole run. */
  function Eval(a: AndOr, n: nat, f: nat, code: ExitCodes): EvalResult
    requires Proper(a)
    decreases |a.ops|
  {
    var stage := a.stages[0];
    assert Commands(stage);
    if a.ops == [] && a.broken.Some? then
      EvalResult(Launches(stage, n, f), a.broken.value)
    else
      var events := StageEvents(stage, n, f);
      var status := code(n + |stage| - 1);
      if a.ops == [] || !Proceeds(a.ops[0], status) then EvalResult(events, Returned(status))
      else
        TailIsProper(a);
        var rest := Eval(Tail(a), n + |stage|, f + StageOpens(stage), code);
        EvalResult(events + rest.events, rest.outcome)
  }

  /** Eval of a list with at least one operator, one step unfolded. */
  lemma EvalStep(a: AndOr, n: nat, f: nat, code: ExitCodes)
    requires Proper(a) && a.ops != []
    ensures Proper(Tail(a)) && Commands(a.stages[0]) && a.stages[0] != []
    ensures var k := |a.stages[0]|;
      var rest := Eval(Tail(a), n + k, f + StageOpens(a.stages[0]), code);
      Eval(a, n, f, code) ==
        if Proceeds(a.ops[0], code(n + k - 1)) then
          EvalResult(StageEvents(a.stages[0], n, f) + rest.events, rest.outcome)
        else EvalResult(StageEvents(a.stages[0], n, f), Returned(code(n + k - 1)))
  {
    hide StageEvents, StageOpens, Launches, Commands;
    TailIsProper(a);
  }

  lemma EvalLast(a: AndOr, n: nat, f: nat, code: ExitCodes)
    requires Proper(a) && a.ops == [] && a.broken == None
    ensures Commands(a.stages[0]) && a.stages[0] != []
    ensures Eval(a, n, f, code) == EvalResult(StageEvents(a.stages[0], n, f), Returned(code(n + |a.stages[0]| - 1)))
  {
    hide StageEvents, StageOpens, Launches, Commands;
  }

  lemma {:induction false} EvalLocal(a: AndOr, n: nat, f: nat, c: ExitCodes, d: ExitCodes)
    requires Proper(a) && forall i: nat :: n <= i ==> c(i) == d(i)
    ensures Eval(a, n, f, c) == Eval(a, n, f, d)
    decreases |a.ops|
  {
    hide StageEvents, StageOpens, Launches, Commands;
    if a.ops != [] {
      EvalStep(a, n, f, c);
      EvalStep(a, n, f, d);
      hide Eval, StageEvents, StageOpens, Commands, Proper;
      EvalLocal(Tail(a), n + |a.stages[0]|, f + StageOpens(a.stages[0]), c, d);
    }
  }

  /** Exit codes under which every operator proceeds. */
  lemma {:induction false} ReachesEnd(a: AndOr, n: nat, f: nat) returns (code: ExitCodes)
    requires Proper(a) && a.broken.Some?
    ensures Eval(a, n, f, code).outcome == a.broken.value
    decreases |a.ops|
  {
    hide StageEvents, StageOpens, Launches, Commands;
    if a.ops == [] {
      code := (i: nat) => 0;
    } else {
      EvalStep(a, n, f, (i: nat) => 0);
      var n', f' := n + |a.stages[0]|, f + StageOpens(a.stages[0]);
      hide Eval, StageEvents, StageOpens, Commands, Proper;
      var later := ReachesEnd(Tail(a), n', f');
      var go := if a.ops[0] == And then 0 else 1;
      code := (i: nat) => if i < n' then go else later(i);
      EvalStep(a, n, f, code);
      EvalLocal(Tail(a), n', f', code, later);
    }
  }

  lemma {:induction false} WholeReturns(a: AndOr, n: nat, f: nat, code: ExitCodes)
    requires Proper(a) && a.broken == None
    ensures Eval(a, n, f, code).outcome.Returned?
    decreases |a.ops|
  {
    hide StageEvents, StageOpens, Launches, Commands;
    if a.ops != [] {
      EvalStep(a, n, f, code);
      hide Eval, StageEvents, StageOpens, Commands, Proper;
      WholeReturns(Tail(a), n + |a.stages[0]|, f + StageOpens(a.stages[0]), code);
    }
  }

  /** A pipeline returns a status under all exit codes exactly when it is runnable. */
  lemma ReturnsIffRunnable(p: seq<Node>, join: PathJoin)
    requires WellFormed(p)
    ensures Proper(Structure(p, ".", [], join))
    ensures (forall code :: Eval(Structure(p, ".", [], join), 0, 0, code).outcome.Returned?) <==> Runnable(p)
  {
    StructureIsProper(p, ".", [], join);
    RunnableIffWhole(p, ".", [], join);
    var a := Structure(p, ".", [], join);
    if a.broken == None {
      forall code
        ensures Eval(a, 0, 0, code).outcome.Returned?
      {
        WholeReturns(a, 0, 0, code);
      }
    } else {
      var code := ReachesEnd(a, 0, 0);
    }
  }

  // ---------------------------------------------------------------- bookkeeping of files and processes

  /** Handles opened and closed, processes launched and waited for, so far. */
  datatype Ledger = Ledger(opens: nat, closes: nat, launches: nat, waits: nat)

  predicate Usable(s: Stream, l: Ledger) {
    match s
    case Handle(id) => l.closes <= id < l.opens
    case PipeFrom(proc) => l.waits <= proc < l.launches
    case _ => true
  }

  /**
   Opens get the next handle; closes and waits go in order, each once; a file is closed only after
   all processes have been waited for; a process starts only on open files and unwaited neighbours.
   */
  function Entry(l: Ledger, e: Event): Option<Ledger> {
    match e
    case OpenRead(id, _) => if id == l.opens then Some(l.(opens := id + 1)) else None
    case OpenWrite(id, _) => if id == l.opens then Some(l.(opens := id + 1)) else None
    case Close(id) =>
      if id == l.closes && id < l.opens && l.launches == l.waits then Some(l.(closes := id + 1)) else None
    case Wait(proc) => if proc == l.waits && proc < l.launches then Some(l.(waits := proc + 1)) else None
    case Launch(_, stdin, stdout, stderr, _, _) =>
      if Usable(stdin, l) && Usable(stdout, l) && Usable(stderr, l) then Some(l.(launches := l.launches + 1))
      else None
  }

  function Audit(l: Ledger, events: seq<Event>): Option<Ledger>
    decreases events
  {
    if events == [] then Some(l)
    else match Entry(l, events[0])
      case None => None
      case Some(next) => Audit(next, events[1..])
  }

  lemma {:induction false} AuditConcat(l: Ledger, a: seq<Event>, b: seq<Event>)
    ensures Audit(l, a + b) == match Audit(l, a) case None => None case Some(m) => Audit(m, b)
    decreases a
  {
    if a == [] {
      assert a + b == b;
    } else {
      assert (a + b)[0] == a[0] && (a + b)[1..] == a[1..] + b;
      if Entry(l, a[0]).Some? {
        AuditConcat(Entry(l, a[0]).value, a[1..], b);
      }
    }
  }

  lemma AuditThen(l: Ledger, a: seq<Event>, m: Ledger, b: seq<Event>, r: Ledger)
    requires Audit(l, a) == Some(m) && Audit(m, b) == Some(r)
    ensures Audit(l, a + b) == Some(r)
  {
    AuditConcat(l, a, b);
  }

  lemma AuditOpens(l: Ledger, opens: seq<Event>)
    requires |opens| <= 1
    requires opens != [] ==> (opens[0].OpenRead? || opens[0].OpenWrite?) && opens[0].id == l.opens
    ensures Audit(l, opens) == Some(l.(opens := l.opens + |opens|))
  {
    if opens != [] {
      assert opens[1..] == [];
    }
  }

  lemma AuditLaunch(l: Ledger, e: Event)
    requires e.Launch? && Usable(e.stdin, l) && Usable(e.stdout, l) && Usable(e.stderr, l)
    ensures Audit(l, [e]) == Some(l.(launches := l.launches + 1))
  {
    assert [e][1..] == [];
  }

  /** At most one open event, of handle id. */
  predicate OneOpen(e: seq<Event>, id: nat) {
    |e| <= 1 && (e != [] ==> (e[0].OpenRead? || e[0].OpenWrite?) && e[0].id == id)
  }

  lemma {:induction false} AuditPieces(l: Ledger, ins: seq<Event>, outs: seq<Event>, errs: seq<Event>, launch: Event)
    requires OneOpen(ins, l.opens) && OneOpen(outs, l.opens + |ins|) && OneOpen(errs, l.opens + |ins| + |outs|)
    requires var l3 := l.(opens := l.opens + |ins| + |outs| + |errs|);
      launch.Launch? && Usable(launch.stdin, l3) && Usable(launch.stdout, l3) && Usable(launch.stderr, l3)
    ensures Audit(l, ins + outs + errs + [launch])
         == Some(l.(opens := l.opens + |ins| + |outs| + |errs|, launches := l.launches + 1))
  {
    hide Audit, Usable;
    var l1 := l.(opens := l.opens + |ins|);
    var l2 := l.(opens := l1.opens + |outs|);
    var l3 := l.(opens := l2.opens + |errs|);
    AuditOpens(l, ins);
    AuditOpens(l1, outs);
    AuditOpens(l2, errs);
    AuditLaunch(l3, launch);
    AuditThen(l, ins, l1, outs, l2);
    AuditThen(l, ins + outs, l2, errs, l3);
    AuditThen(l, ins + outs + errs, l3, [launch], l3.(launches := l.launches + 1));
  }

  lemma {:induction false} AuditCmd(c: Cmd, piped: bool, l: Ledger)
    requires c.node.Command? && (piped ==> l.waits < l.launches) && l.closes <= l.opens
    ensures Audit(l, CmdEvents(c, piped, l.launches, l.opens))
         == Some(l.(opens := l.opens + CmdOpens(c, piped), launches := l.launches + 1))
  {
    hide Audit;
    var f := l.opens;
    var ins := InOpens(c, piped, f);
    var outs := OutOpens(c.node.stdout, f + |ins|);
    var errs := OutOpens(c.node.stderr, f + |ins| + |outs|);
    var events := CmdEvents(c, piped, l.launches, f);
    AuditPieces(l, ins, outs, errs, events[|events|-1]);
    assert events == ins + outs + errs + [events[|events|-1]];
    SameCount(c, piped, f);
  }

  lemma SameCount(c: Cmd, piped: bool, f: nat)
    requires c.node.Command?
    ensures var ins := |InOpens(c, piped, f)|; var outs := |OutOpens(c.node.stdout, f + ins)|;
      CmdOpens(c, piped) == ins + outs + |OutOpens(c.node.stderr, f + ins + outs)|
  {
  }

  lemma {:induction false} AuditLaunches(cmds: seq<Cmd>, l: Ledger)
    requires Commands(cmds) && l.waits == l.launches && l.closes <= l.opens
    ensures Audit(l, Launches(cmds, l.launches, l.opens))
         == Some(l.(opens := l.opens + StageOpens(cmds), launches := l.launches + |cmds|))
    decreases |cmds|
  {
    hide CmdEvents, CmdOpens, Entry;
    if cmds != [] {
      var k := |cmds| - 1;
      var before := cmds[..k];
      AuditLaunches(before, l);
      var m := l.(opens := l.opens + StageOpens(before), launches := l.launches + k);
      AuditCmd(cmds[k], k > 0, m);
      AuditThen(l, Launches(before, l.launches, l.opens), m, CmdEvents(cmds[k], k > 0, m.launches, m.opens),
                l.(opens := l.opens + StageOpens(cmds), launches := l.launches + |cmds|));
    }
  }

  lemma {:induction false} AuditWaits(n: nat, k: nat, l: Ledger)
    requires n == l.waits && l.waits + k == l.launches
    ensures Audit(l, Waits(n, k)) == Some(l.(waits := l.launches))
    decreases k
  {
    if k > 0 {
      assert Waits(n, k)[1..] == Waits(n + 1, k - 1);
      AuditWaits(n + 1, k - 1, l.(waits := l.waits + 1));
    }
  }

  lemma {:induction false} AuditCloses(f: nat, k: nat, l: Ledger)
    requires f == l.closes && l.closes + k == l.opens && l.launches == l.waits
    ensures Audit(l, Closes(f, k)) == Some(l.(closes := l.opens))
    decreases k
  {
    if k > 0 {
      assert Closes(f, k)[1..] == Closes(f + 1, k - 1);
      AuditCloses(f + 1, k - 1, l.(closes := l.closes + 1));
    }
  }

  lemma AuditStage(cmds: seq<Cmd>, n: nat, f: nat)
    requires Commands(cmds)
    ensures Audit(Ledger(f, f, n, n), StageEvents(cmds, n, f))
         == Some(Ledger(f + StageOpens(cmds), f + StageOpens(cmds), n + |cmds|, n + |cmds|))
  {
    hide Audit, Launches, StageOpens, Commands, Waits, Closes;
    var l := Ledger(f, f, n, n);
    AuditLaunches(cmds, l);
    var l1 := l.(opens := f + StageOpens(cmds), launches := n + |cmds|);
    var l2 := l1.(waits := n + |cmds|);
    var l3 := l2.(closes := l2.opens);
    AuditWaits(n, |cmds|, l1);
    AuditCloses(f, StageOpens(cmds), l2);
    AuditThen(l, Launches(cmds, n, f), l1, Waits(n, |cmds|), l2);
    AuditThen(l, Launches(cmds, n, f) + Waits(n, |cmds|), l2, Closes(f, StageOpens(cmds)), l3);
  }

  /** Whoever returns has closed every file it opened and waited for every process, each exactly once. */
  lemma {:induction false} AuditEval(a: AndOr, n: nat, f: nat, code: ExitCodes)
    requires Proper(a)
    ensures var r, l := Eval(a, n, f, code), Audit(Ledger(f, f, n, n), Eval(a, n, f, code).events);
      && l.Some?
      && (r.outcome.Returned? ==> l.value.opens == l.value.closes && l.value.launches == l.value.waits)
    decreases |a.ops|
  {
    hide StageEvents, StageOpens, Launches, Audit, Commands;
    var stage := a.stages[0];
    assert Commands(stage);
    var opens := f + StageOpens(stage);
    var start, next := Ledger(f, f, n, n), Ledger(opens, opens, n + |stage|, n + |stage|);
    if a.ops == [] && a.broken.Some? {
      AuditLaunches(stage, start);
    } else {
      AuditStage(stage, n, f);
      if a.ops == [] {
        EvalLast(a, n, f, code);
      } else {
        EvalStep(a, n, f, code);
        hide Eval, StageEvents, StageOpens, Commands, Proper, Audit;
        if Proceeds(a.ops[0], code(n + |stage| - 1)) {
          AuditEval(Tail(a), n + |stage|, f + StageOpens(stage), code);
          var rest := Eval(Tail(a), n + |stage|, f + StageOpens(stage), code).events;
          AuditThen(start, StageEvents(stage, n, f), next, rest, Audit(next, rest).value);
        }
      }
    }
  }
}
