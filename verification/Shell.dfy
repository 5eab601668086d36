/**
 The class Pipeline of shellcmd.py: parse builds the node list token by token, run executes it.
 */
module Shell {
  import opened Basics
  import opened ShellSyntax
  import opened ShellEval
  import opened ShellRefusals
  import ShellLaunches

  class Pipeline {
    var currentCommand: Option<Node>
    var pipeline: seq<Node>

    constructor ()
      ensures currentCommand == None && pipeline == []
    {
      currentCommand := None;
      pipeline := [];
    }

    /** false stands for the failed assert. */
    method CommitCommand() returns (ok: bool)
      modifies this
      ensures ok <==> old(currentCommand).Some?
      ensures ok ==> pipeline == old(pipeline) + [old(currentCommand).value] && currentCommand == None
      ensures !ok ==> pipeline == old(pipeline) && currentCommand == None
    {
      if currentCommand == None {
        return false;
      }
      pipeline := pipeline + [currentCommand.value];
      currentCommand := None;
      return true;
    }

    /** The operators that end a command: commit it, then append the operator. */
    method CommitBefore(op: Node)
      requires currentCommand.Some?
      modifies this
      ensures pipeline == old(pipeline) + [old(currentCommand).value, op] && currentCommand == None
    {
      var ok := CommitCommand();
      pipeline := pipeline + [op];
    }

    method Parse(command: seq<string>) returns (r: Result<seq<Node>>)
      modifies this
      ensures r == ParseTokens(command)
      ensures r.Ok? ==> WellFormed(r.value) && pipeline == r.value && currentCommand == None
      ensures !r.Ok? ==> LeftBy(command, currentCommand, pipeline)
    {
      currentCommand := None;
      pipeline := [];
      var tokens := command;
      var state := BEGIN;
      var envVars: map<string, string> := map[];
      ghost var s := START;
      ghost var k := 0;
      while tokens != []
        invariant k <= |command| && tokens == command[k..] && Steps(START, command[..k]) == Ok(s)
        invariant s == ParserState(state, currentCommand, pipeline, envVars) && Fits(s)
        invariant ParseTokens(command) == Finish(Steps(s, tokens))
        decreases |tokens|
      {
        hide ParseTokens, LeftBy;
        var token := tokens[0];
        tokens := tokens[1..];
        ghost var step := Step(s, token);
        StepsMore(command, k, s);
        if step == AssertionError {
          LeavesAt(command, k, s);
        }
        k := k + 1;
        match state {
          case BEGIN =>
            var m := MatchEnv(token);
            if m.Some? {
              envVars := envVars[m.value.0 := m.value.1];
            } else if token == "cd" {
              currentCommand := Some(Chdir(None));
              if envVars != map[] {
                return AssertionError;
              }
              state := CHDIR;
            } else {
              currentCommand := Some(Command(token, [token], Inherit, Inherit, Inherit, None));
              if envVars != map[] {
                currentCommand := Some(currentCommand.value.(env := Some(envVars)));
                envVars := map[];
              }
              state := COMMAND;
            }
          case COMMAND =>
            var cmd := currentCommand.value;
            if token == ">" {
              state := STDOUT;
            } else if token == "2>" {
              state := STDERR;
            } else if token == "2>&1" {
              if cmd.stderr != Inherit {
                return AssertionError;
              }
              currentCommand := Some(cmd.(stderr := Stdout));
            } else if token == "<" {
              state := STDIN;
            } else if token == "|" {
              if cmd.stdout != Inherit {
                return AssertionError;
              }
              currentCommand := Some(cmd.(stdout := Pipe));
              CommitBefore(PipeOp);
              state := BEGIN;
            } else if token == "&&" {
              CommitBefore(And);
              state := BEGIN;
            } else if token == "||" {
              CommitBefore(Or);
              state := BEGIN;
            } else {
              currentCommand := Some(cmd.(argv := cmd.argv + [token]));
            }
          case CHDIR =>
            if token == "&&" {
              CommitBefore(And);
              state := BEGIN;
            } else {
              if currentCommand.value.dir != None {
                return AssertionError;
              }
              currentCommand := Some(Chdir(Some(token)));
            }
          case STDOUT =>
            if currentCommand.value.stdout != Inherit {
              return AssertionError;
            }
            currentCommand := Some(currentCommand.value.(stdout := File(token)));
            state := COMMAND;
          case STDERR =>
            if currentCommand.value.stderr != Inherit {
              return AssertionError;
            }
            currentCommand := Some(currentCommand.value.(stderr := File(token)));
            state := COMMAND;
          case STDIN =>
            if currentCommand.value.stdin != Inherit {
              return AssertionError;
            }
            currentCommand := Some(currentCommand.value.(stdin := File(token)));
            state := COMMAND;
        }
        s := ParserState(state, currentCommand, pipeline, envVars);
        assert step == Ok(s);
      }
      assert command[..k] == command;
      var committed := CommitCommand();
      if !committed {
        return AssertionError;
      }
      ParseIsWellFormed(command);
      return Ok(pipeline);
    }

    /** Lines 202-211: wait for all; any failure makes the last exit code the result. */
    method ExecPipedCommands(commands: seq<nat>, code: ExitCodes, trace0: seq<Event>)
      returns (retval: int, trace: seq<Event>)
      ensures trace == trace0 + seq(|commands|, i requires 0 <= i < |commands| => Wait(commands[i]))
      ensures retval == if commands == [] then 0 else code(commands[|commands|-1])
    {
      trace := trace0;
      var retvals: seq<int> := [];
      for i := 0 to |commands|
        invariant trace == trace0 + seq(i, j requires 0 <= j < i => Wait(commands[j]))
        invariant retvals == seq(i, j requires 0 <= j < i => code(commands[j]))
      {
        trace := trace + [Wait(commands[i])];
        retvals := retvals + [code(commands[i])];
      }
      assert commands != [] ==> retvals[|commands|-1] == code(commands[|commands|-1]);
      retval := 0;
      for i := 0 to |retvals|
        invariant retval == 0 && forall j :: 0 <= j < i ==> retvals[j] == 0
      {
        if retvals[i] != 0 {
          retval := retvals[|retvals|-1];
          break;
        }
      }
    }

    /** Lines 300-303: close what is not dev_null. */
    method CloseFiles(filesToClose: seq<Stream>, trace0: seq<Event>) returns (trace: seq<Event>)
      ensures trace == trace0 + ClosesOf(filesToClose)
    {
      trace := trace0;
      for i := 0 to |filesToClose|
        invariant trace == trace0 + ClosesOf(filesToClose[..i])
      {
        assert filesToClose[..i+1][..i] == filesToClose[..i];
        if filesToClose[i].Handle? {
          trace := trace + [Close(filesToClose[i].id)];
        }
      }
      assert filesToClose[..|filesToClose|] == filesToClose;
    }

    /** Lines 45-49 and 256-257: /dev/null is open already, and listed to be closed like any other. */
    method OpenOutFile(filename: string, f0: nat, filesToClose0: seq<Stream>, trace0: seq<Event>)
      returns (s: Stream, f: nat, filesToClose: seq<Stream>, trace: seq<Event>)
      ensures s == OutStream(File(filename), f0)
      ensures trace == trace0 + OutOpens(File(filename), f0) && f == f0 + |OutOpens(File(filename), f0)|
      ensures ClosesOf(filesToClose) == ClosesOf(filesToClose0) + Closes(f0, f - f0)
    {
      if IsDevNull(filename) {
        s, f, trace := DevNull, f0, trace0;
      } else {
        s, f, trace := Handle(f0), f0 + 1, trace0 + [OpenWrite(f0, filename)];
      }
      filesToClose := filesToClose0 + [s];
      assert filesToClose[..|filesToClose0|] == filesToClose0;
    }

    /** Lines 241-249. */
    method OpenStdin(cmd: Node, pipedCommands: seq<nat>, piped: bool, ghost n: nat, f0: nat, filesToClose0: seq<Stream>,
                     trace0: seq<Event>)
      returns (s: Stream, f: nat, filesToClose: seq<Stream>, trace: seq<Event>)
      requires GoodCommand(cmd)
      requires piped ==> n > 0 && pipedCommands != [] && pipedCommands[|pipedCommands|-1] == n - 1
      ensures s == InStream(Cmd(cmd, ""), piped, n, f0)
      ensures trace == trace0 + InOpens(Cmd(cmd, ""), piped, f0) && f == f0 + |InOpens(Cmd(cmd, ""), piped, f0)|
      ensures ClosesOf(filesToClose) == ClosesOf(filesToClose0) + Closes(f0, f - f0)
    {
      s, f, filesToClose, trace := Inherited, f0, filesToClose0, trace0;
      if piped {
        s := PipeFrom(pipedCommands[|pipedCommands|-1]);
      } else if cmd.stdin != Inherit {
        s, f, trace := Handle(f), f + 1, trace + [OpenRead(f, cmd.stdin.name)];
        filesToClose := filesToClose + [s];
        assert filesToClose[..|filesToClose0|] == filesToClose0;
      }
    }

    /** Lines 251-259 for stdout, and 261-273 for stderr. */
    method OpenTarget(t: Target, f0: nat, filesToClose0: seq<Stream>, trace0: seq<Event>)
      returns (s: Stream, f: nat, filesToClose: seq<Stream>, trace: seq<Event>)
      ensures s == OutStream(t, f0)
      ensures trace == trace0 + OutOpens(t, f0) && f == f0 + |OutOpens(t, f0)|
      ensures ClosesOf(filesToClose) == ClosesOf(filesToClose0) + Closes(f0, f - f0)
    {
      s, f, filesToClose, trace := Inherited, f0, filesToClose0, trace0;
      if t == Pipe {
        s := NewPipe;
      } else if t == Stdout {
        s := SameAsStdout;
      } else if t.File? {
        s, f, filesToClose, trace := OpenOutFile(t.name, f, filesToClose, trace);
      }
    }

    /** Lines 241-290: open the files of cmd and launch it as process n. */
    method LaunchCommand(cmd: Node, pipedCommands: seq<nat>, piped: bool, cwd: string, ghost n: nat, f0: nat,
                         filesToClose0: seq<Stream>, trace0: seq<Event>)
      returns (f: nat, filesToClose: seq<Stream>, trace: seq<Event>)
      requires cmd.Command? && GoodCommand(cmd)
      requires piped ==> n > 0 && pipedCommands != [] && pipedCommands[|pipedCommands|-1] == n - 1
      ensures trace == trace0 + CmdEvents(Cmd(cmd, cwd), piped, n, f0)
      ensures f == f0 + CmdOpens(Cmd(cmd, cwd), piped)
      ensures ClosesOf(filesToClose) == ClosesOf(filesToClose0) + Closes(f0, f - f0)
    {
      hide GoodCommand, InOpens, OutOpens, OutStream, ClosesOf, Closes;
      var stdin, stdout, stderr;
      stdin, f, filesToClose, trace := OpenStdin(cmd, pipedCommands, piped, n, f0, filesToClose0, trace0);
      ghost var f1 := f;
      stdout, f, filesToClose, trace := OpenTarget(cmd.stdout, f, filesToClose, trace);
      ghost var f2 := f;
      stderr, f, filesToClose, trace := OpenTarget(cmd.stderr, f, filesToClose, trace);
      var procCwd := if cwd == "." then None else Some(cwd);
      trace := trace + [Launch(cmd.argv, stdin, stdout, stderr, cmd.env, procCwd)];
      SameStdin(cmd, cwd, piped, n, f0);
      SameCount(Cmd(cmd, cwd), piped, f0);
      MoreCloses(f0, f1 - f0, f2 - f1);
      MoreCloses(f0, f2 - f0, f - f2);
    }

    /** Lines 296-303, 313-318 and 331-336: wait for the commands of a stage, then close its files. */
    method EndStage(ghost cmds: seq<Cmd>, ghost n0: nat, ghost f0: nat, pipedCommands: seq<nat>,
                    filesToClose: seq<Stream>, code: ExitCodes, trace0: seq<Event>, ghost before: seq<Event>)
      returns (retval: int, trace: seq<Event>)
      requires Commands(cmds) && cmds != [] && trace0 == before + Launches(cmds, n0, f0)
      requires pipedCommands == Procs(n0, |cmds|) && ClosesOf(filesToClose) == Closes(f0, StageOpens(cmds))
      ensures trace == before + StageEvents(cmds, n0, f0)
      ensures retval == code(n0 + |cmds| - 1)
    {
      hide Launches, StageOpens, ClosesOf, Closes, Commands;
      retval, trace := ExecPipedCommands(pipedCommands, code, trace0);
      assert Waits(n0, |cmds|) == seq(|pipedCommands|, i requires 0 <= i < |pipedCommands| => Wait(pipedCommands[i]));
      trace := CloseFiles(filesToClose, trace);
    }

    /** verbose is off. FellOff: an empty pipeline returns nothing. */
    method Run(code: ExitCodes, join: PathJoin) returns (outcome: Outcome, trace: seq<Event>)
      requires pipeline == [] || WellFormed(pipeline)
      ensures pipeline == [] ==> outcome == FellOff && trace == []
      ensures pipeline != [] ==>
        && Proper(Structure(pipeline, ".", [], join))
        && EvalResult(trace, outcome) == Eval(Structure(pipeline, ".", [], join), 0, 0, code)
        && ShellLaunches.RunsAs(pipeline, join, code, trace, outcome)
    {
      hide Launches, StageOpens, ClosesOf, Closes, StageEvents, CmdEvents, CmdOpens, Structure, Eval, Proper, Inside,
        Commands, WellFormed, GoodCommand, GoodPair;
      hide ShellLaunches.RunsAs;
      var nodes := pipeline;
      var filesToClose: seq<Stream>, pipedCommands: seq<nat> := [], [];
      var piped, cwd := false, ".";
      var n: nat, f: nat := 0, 0;
      trace := [];
      ghost var run := Progress([], [], 0, 0);
      if pipeline != [] {
        Start(pipeline, join, code);
        ShellLaunches.RunMeans(pipeline, join, code);
      }
      while nodes != []
        invariant nodes == [] ==> pipeline == [] && trace == []
        invariant nodes != [] ==> Inside(pipeline, join, code, run, nodes, cwd, n, f, trace)
        invariant nodes != [] ==> Buffers(run, n, pipedCommands, filesToClose, piped, f)
        decreases |nodes|
      {
        var node := nodes[0];
        InsideFacts(pipeline, join, code, run, nodes, cwd, n, f, trace);
        if node.Chdir? {
          if |nodes| == 1 {
            return IndexError, trace;
          }
          if nodes[1] != And {
            return AssertionFailed, trace;
          }
          if node.dir == None {
            return AttributeError, trace;
          }
          AfterChdir(pipeline, join, code, run, nodes, cwd, n, f, trace);
          cwd := join(cwd, node.dir.value);
          nodes := nodes[2..];
          continue;
        }
        ghost var f1, trace1 := f, trace;
        f, filesToClose, trace := LaunchCommand(node, pipedCommands, piped, cwd, n, f, filesToClose, trace);
        pipedCommands := pipedCommands + [n];
        AfterLaunch(pipeline, join, code, run, nodes, cwd, n, f1, trace1, f, trace);
        ghost var cur := run.cur + [Cmd(node, cwd)];
        MoreCloses(run.f0, f1 - run.f0, f - f1);
        n := n + 1;
        if |nodes| == 1 {
          LastStage(pipeline, join, code, run, nodes, cwd, n - 1, f1, trace1);
          var retval;
          retval, trace := EndStage(cur, run.n0, run.f0, pipedCommands, filesToClose, code, trace, run.before);
          return Returned(retval), trace;
        }
        if nodes[1] == PipeOp {
          AfterPipe(pipeline, join, code, run, nodes, cwd, n - 1, f1, trace1, f, trace);
          run := run.(cur := cur);
          piped := true;
        } else {
          AfterOperator(pipeline, join, code, run, nodes, cwd, n - 1, f1, trace1);
          var thisRetval;
          thisRetval, trace := EndStage(cur, run.n0, run.f0, pipedCommands, filesToClose, code, trace, run.before);
          if !Proceeds(nodes[1], thisRetval) {
            return Returned(thisRetval), trace;
          }
          run := Progress(run.before + StageEvents(cur, run.n0, run.f0), [], n, f);
          piped, pipedCommands, filesToClose := false, [], [];
          NoFiles(run, n, f);
        }
        nodes := nodes[2..];
      }
      return FellOff, trace;
    }
  }

  /** What the proof of run keeps: events of the finished stages, and the commands of the current one. */
  datatype Progress = Progress(before: seq<Event>, cur: seq<Cmd>, n0: nat, f0: nat)

  function Procs(n0: nat, k: nat): seq<nat> {
    seq(k, i requires 0 <= i < k => n0 + i)
  }

  ghost predicate Inside(p: seq<Node>, join: PathJoin, code: ExitCodes, run: Progress, nodes: seq<Node>, cwd: string,
                         n: nat, f: nat, trace: seq<Event>)
  {
    && WellFormed(p) && WellFormed(nodes) && Commands(run.cur)
    && n == run.n0 + |run.cur| && f == run.f0 + StageOpens(run.cur)
    && trace == run.before + Launches(run.cur, run.n0, run.f0)
    && Proper(Structure(p, ".", [], join)) && Proper(Structure(nodes, cwd, run.cur, join))
    && var rest := Eval(Structure(nodes, cwd, run.cur, join), run.n0, run.f0, code);
      Eval(Structure(p, ".", [], join), 0, 0, code) == EvalResult(run.before + rest.events, rest.outcome)
  }

  ghost predicate Buffers(run: Progress, n: nat, pipedCommands: seq<nat>, filesToClose: seq<Stream>, piped: bool,
                          f: nat) {
    && n == run.n0 + |run.cur|
    && pipedCommands == Procs(run.n0, |run.cur|)
    && (piped <==> run.cur != [])
    && run.f0 <= f && ClosesOf(filesToClose) == Closes(run.f0, f - run.f0)
  }

  lemma NoFiles(run: Progress, n: nat, f: nat)
    requires run.cur == [] && run.n0 == n && run.f0 == f
    ensures Buffers(run, n, [], [], false, f)
  {
  }

  lemma Start(p: seq<Node>, join: PathJoin, code: ExitCodes)
    requires WellFormed(p)
    ensures Inside(p, join, code, Progress([], [], 0, 0), p, ".", 0, 0, [])
    ensures Buffers(Progress([], [], 0, 0), 0, [], [], false, 0)
  {
    StructureIsProper(p, ".", [], join);
    var e := Eval(Structure(p, ".", [], join), 0, 0, code);
    assert [] + e.events == e.events;
  }

  lemma InsideFacts(p: seq<Node>, join: PathJoin, code: ExitCodes, run: Progress, nodes: seq<Node>, cwd: string, n: nat,
                    f: nat, trace: seq<Event>)
    requires Inside(p, join, code, run, nodes, cwd, n, f, trace)
    ensures WellFormed(p) && WellFormed(nodes) && Proper(Structure(p, ".", [], join)) && n == run.n0 + |run.cur|
    ensures |nodes| > 1 ==> GoodPair(nodes[0], nodes[1]) && |nodes| > 2
    ensures nodes[0].Chdir? || (nodes[0].Command? && GoodCommand(nodes[0]))
    ensures nodes[0].Chdir? && |nodes| == 1 ==>
      Eval(Structure(p, ".", [], join), 0, 0, code) == EvalResult(trace, IndexError)
    ensures nodes[0].Chdir? && |nodes| > 1 ==> nodes[1] == And
    ensures nodes[0].Chdir? && |nodes| > 1 && nodes[0].dir == None ==>
      Eval(Structure(p, ".", [], join), 0, 0, code) == EvalResult(trace, AttributeError)
  {
    hide StageOpens, Launches, StageEvents;
  }

  lemma AfterChdir(p: seq<Node>, join: PathJoin, code: ExitCodes, run: Progress, nodes: seq<Node>, cwd: string, n: nat,
                   f: nat, trace: seq<Event>)
    requires Inside(p, join, code, run, nodes, cwd, n, f, trace)
    requires nodes[0].Chdir? && |nodes| > 1 && nodes[0].dir.Some?
    ensures Inside(p, join, code, run, nodes[2..], join(cwd, nodes[0].dir.value), n, f, trace)
  {
    hide Eval, Proper, StageOpens, Launches;
  }

  /** The launched command joins the current stage. */
  lemma AfterLaunch(p: seq<Node>, join: PathJoin, code: ExitCodes, run: Progress, nodes: seq<Node>, cwd: string, n: nat,
                    f: nat, trace: seq<Event>, f': nat, trace': seq<Event>)
    requires Inside(p, join, code, run, nodes, cwd, n, f, trace) && nodes[0].Command?
    requires var piped := run.cur != []; var c := Cmd(nodes[0], cwd);
      trace' == trace + CmdEvents(c, piped, n, f) && f' == f + CmdOpens(c, piped)
    ensures var cur := run.cur + [Cmd(nodes[0], cwd)];
      && Commands(cur) && trace' == run.before + Launches(cur, run.n0, run.f0)
      && f <= f' && f' == run.f0 + StageOpens(cur)
  {
    hide Eval, Proper, Structure, CmdEvents, CmdOpens, GoodCommand, GoodPair, GoodChdir;
    var cur := run.cur + [Cmd(nodes[0], cwd)];
    assert cur[..|cur|-1] == run.cur;
  }

  lemma LastStage(p: seq<Node>, join: PathJoin, code: ExitCodes, run: Progress, nodes: seq<Node>, cwd: string, n: nat,
                  f: nat, trace: seq<Event>)
    requires Inside(p, join, code, run, nodes, cwd, n, f, trace) && nodes[0].Command? && |nodes| == 1
    requires Commands(run.cur + [Cmd(nodes[0], cwd)])
    ensures var cur := run.cur + [Cmd(nodes[0], cwd)];
      Eval(Structure(p, ".", [], join), 0, 0, code)
        == EvalResult(run.before + StageEvents(cur, run.n0, run.f0), Returned(code(run.n0 + |cur| - 1)))
  {
    hide StageEvents, Launches, StageOpens;
  }

  lemma AfterPipe(p: seq<Node>, join: PathJoin, code: ExitCodes, run: Progress, nodes: seq<Node>, cwd: string, n: nat,
                  f: nat, trace: seq<Event>, f': nat, trace': seq<Event>)
    requires Inside(p, join, code, run, nodes, cwd, n, f, trace)
    requires nodes[0].Command? && |nodes| > 1 && nodes[1] == PipeOp
    requires var cur := run.cur + [Cmd(nodes[0], cwd)];
      Commands(cur) && trace' == run.before + Launches(cur, run.n0, run.f0) && f' == run.f0 + StageOpens(cur)
    ensures Inside(p, join, code, run.(cur := run.cur + [Cmd(nodes[0], cwd)]), nodes[2..], cwd, n + 1, f', trace')
  {
    hide Eval, Proper, StageOpens, Launches;
  }

  lemma AfterOperator(p: seq<Node>, join: PathJoin, code: ExitCodes, run: Progress, nodes: seq<Node>, cwd: string,
                      n: nat, f: nat, trace: seq<Event>)
    requires Inside(p, join, code, run, nodes, cwd, n, f, trace)
    requires nodes[0].Command? && |nodes| > 1 && nodes[1] != PipeOp
    requires Commands(run.cur + [Cmd(nodes[0], cwd)])
    ensures var cur := run.cur + [Cmd(nodes[0], cwd)];
      var events := run.before + StageEvents(cur, run.n0, run.f0);
      var status := code(run.n0 + |cur| - 1);
      if Proceeds(nodes[1], status) then
        Inside(p, join, code, Progress(events, [], n + 1, run.f0 + StageOpens(cur)), nodes[2..], cwd,
               n + 1, run.f0 + StageOpens(cur), events)
      else Eval(Structure(p, ".", [], join), 0, 0, code) == EvalResult(events, Returned(status))
  {
    hide StageEvents, Launches, StageOpens, Proper, Commands, Eval, GoodCommand, GoodChdir;
    var cur := run.cur + [Cmd(nodes[0], cwd)];
    var a, rest := Structure(nodes, cwd, run.cur, join), Structure(nodes[2..], cwd, [], join);
    assert a == AndOr([cur] + rest.stages, [nodes[1]] + rest.ops, rest.broken);
    hide Structure;
    assert Tail(a) == rest;
    EvalStep(a, run.n0, run.f0, code);
    EmptyStage(n + 1, run.f0 + StageOpens(cur));
    var later := Eval(rest, n + 1, run.f0 + StageOpens(cur), code);
    var events := StageEvents(cur, run.n0, run.f0);
    assert run.before + (events + later.events) == run.before + events + later.events;
    assert run.before + events + [] == run.before + events;
  }

  lemma EmptyStage(n: nat, f: nat)
    ensures Commands([]) && Launches([], n, f) == [] && StageOpens([]) == 0
  {
  }

  lemma SameStdin(cmd: Node, cwd: string, piped: bool, n: nat, f: nat)
    requires cmd.Command? && (piped ==> n > 0)
    ensures InOpens(Cmd(cmd, cwd), piped, f) == InOpens(Cmd(cmd, ""), piped, f)
    ensures InStream(Cmd(cmd, cwd), piped, n, f) == InStream(Cmd(cmd, ""), piped, n, f)
  {
  }

  lemma MoreCloses(f: nat, j: nat, k: nat)
    ensures Closes(f, j) + Closes(f + j, k) == Closes(f, j + k)
  {
  }

  /** The closes of a list of streams, dev_null left out. */
  function ClosesOf(streams: seq<Stream>): seq<Event> {
    if streams == [] then []
    else
      var last := streams[|streams|-1];
      ClosesOf(streams[..|streams|-1]) + if last.Handle? then [Close(last.id)] else []
  }
}
