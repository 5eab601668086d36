/**
 Pipelines and AND-OR lists of sections 2.9.2 and 2.9.3 of the POSIX.1-2017 Shell Command Language,
 evaluated on the node list that parse returns, and when Pipeline.run agrees with them. Here cd is a
 command like any other: it starts no process, its status is 0, it changes the directory only if it is
 reached, and the && after it is an operator of the list. Directories are taken to exist, and a shell
 to wait for all processes of a pipeline.
 */
module ShellPosix {
  import opened Basics
  import opened ShellSyntax
  import opened ShellEval

  // ---------------------------------------------------------------- the first pipeline of a list

  /** The commands of the first pipeline. */
  function PipeCmds(p: seq<Node>, cwd: string): seq<Cmd>
    requires WellFormed(p)
    decreases |p|
  {
    if p[0].Chdir? then []
    else if |p| > 1 && p[1] == PipeOp then [Cmd(p[0], cwd)] + PipeCmds(p[2..], cwd)
    else [Cmd(p[0], cwd)]
  }

  /** What follows it: nothing, or an operator and another list. */
  function AfterPipe(p: seq<Node>): seq<Node>
    requires WellFormed(p)
    decreases |p|
  {
    if |p| > 1 && p[1] == PipeOp then AfterPipe(p[2..]) else p[1..]
  }

  predicate EndsInChdir(p: seq<Node>)
    requires WellFormed(p)
    decreases |p|
  {
    if |p| > 1 && p[1] == PipeOp then EndsInChdir(p[2..]) else p[0].Chdir?
  }

  predicate Operator(n: Node) {
    n == And || n == Or
  }

  /** An operator and the list behind it, or nothing. */
  predicate Rest(r: seq<Node>) {
    r == [] || (Operator(r[0]) && WellFormed(r[1..]) && Runnable(r[1..]))
  }

  lemma {:induction false} AfterPipeIsRest(p: seq<Node>)
    requires WellFormed(p) && Runnable(p)
    ensures Rest(AfterPipe(p)) && |AfterPipe(p)| < |p|
    decreases |p|
  {
    if |p| > 1 {
      RunnableTail(p);
      if p[1] == PipeOp {
        AfterPipeIsRest(p[2..]);
      } else {
        assert p[1..][1..] == p[2..];
      }
    }
  }

  lemma {:induction false} PipeCmdsAreCommands(p: seq<Node>, cwd: string)
    requires WellFormed(p)
    ensures Commands(PipeCmds(p, cwd))
    ensures p[0].Command? ==> PipeCmds(p, cwd) != [] && PipeCmds(p, cwd)[0] == Cmd(p[0], cwd)
    decreases |p|
  {
    if |p| > 1 && p[1] == PipeOp {
      PipeCmdsAreCommands(p[2..], cwd);
    }
  }

  // ---------------------------------------------------------------- one pipeline

  /** A redirection of its own comes after the pipe, and so wins over it. */
  predicate ReadsPipe(c: Cmd, piped: bool)
    requires c.node.Command?
  {
    piped && !c.node.stdin.File?
  }

  function PosixOpens(cmds: seq<Cmd>): nat
    requires Commands(cmds)
  {
    if cmds == [] then 0
    else PosixOpens(cmds[..|cmds|-1]) + CmdOpens(cmds[|cmds|-1], ReadsPipe(cmds[|cmds|-1], |cmds| > 1))
  }

  function PosixLaunches(cmds: seq<Cmd>, n: nat, f: nat): seq<Event>
    requires Commands(cmds)
  {
    if cmds == [] then []
    else
      var k := |cmds| - 1;
      PosixLaunches(cmds[..k], n, f) + CmdEvents(cmds[k], ReadsPipe(cmds[k], k > 0), n + k, f + PosixOpens(cmds[..k]))
  }

  function PosixStage(cmds: seq<Cmd>, n: nat, f: nat): seq<Event>
    requires Commands(cmds)
  {
    PosixLaunches(cmds, n, f) + Waits(n, |cmds|) + Closes(f, PosixOpens(cmds))
  }

  // ---------------------------------------------------------------- evaluation

  /** The working directory, the next process and file handle, and the status of the last pipeline. */
  datatype Env = Env(cwd: string, n: nat, f: nat, status: int)

  /**
   A lone cd acts on the shell itself. In a pipeline of several commands each runs in a subshell
   (section 2.12), so a cd at its end has no effect, and the status of the pipeline is that of the cd.
   */
  function RunPipe(p: seq<Node>, e: Env, join: PathJoin, code: ExitCodes): (seq<Event>, Env)
    requires WellFormed(p) && Runnable(p)
  {
    if p[0].Chdir? then ([], e.(cwd := join(e.cwd, p[0].dir.value), status := 0))
    else
      PipeCmdsAreCommands(p, e.cwd);
      var cmds := PipeCmds(p, e.cwd);
      var status := if EndsInChdir(p) then 0 else code(e.n + |cmds| - 1);
      (PosixStage(cmds, e.n, e.f), Env(e.cwd, e.n + |cmds|, e.f + PosixOpens(cmds), status))
  }

  /** && and || have equal precedence and associate to the left. */
  function Posix(p: seq<Node>, e: Env, join: PathJoin, code: ExitCodes): EvalResult
    requires WellFormed(p) && Runnable(p)
    decreases |p|
  {
    AfterPipeIsRest(p);
    var (events, next) := RunPipe(p, e, join, code);
    var later := PosixRest(AfterPipe(p), next, join, code);
    EvalResult(events + later.events, later.outcome)
  }

  /** A pipeline that is skipped leaves the status, and with it the fate of the next one, as it is. */
  function PosixRest(r: seq<Node>, e: Env, join: PathJoin, code: ExitCodes): EvalResult
    requires Rest(r)
    decreases |r|
  {
    if r == [] then EvalResult([], Returned(e.status))
    else if Proceeds(r[0], e.status) then Posix(r[1..], e, join, code)
    else
      AfterPipeIsRest(r[1..]);
      PosixRest(AfterPipe(r[1..]), e, join, code)
  }

  /** What run does, as a function of the same arguments. */
  function RunOf(p: seq<Node>, cwd: string, n: nat, f: nat, join: PathJoin, code: ExitCodes): EvalResult
    requires WellFormed(p)
  {
    StructureIsProper(p, cwd, [], join);
    Eval(Structure(p, cwd, [], join), n, f, code)
  }

  // ---------------------------------------------------------------- the condition

  /** Every pipe leads into a command, not a cd, and one that does not read a file instead. */
  predicate PlainPipes(p: seq<Node>) {
    forall i :: 0 <= i < |p| - 1 && p[i] == PipeOp ==> p[i+1].Command? && p[i+1].stdin == Inherit
  }

  /** The same for the pipes among the first j nodes, of which the last is no pipe. */
  predicate PlainUpTo(p: seq<Node>, j: nat)
    requires j <= |p|
  {
    forall i :: 0 <= i < j - 1 && p[i] == PipeOp ==> p[i+1].Command? && p[i+1].stdin == Inherit
  }

  /** The same for the first pipeline, which is not a lone cd. */
  predicate PlainPipe(p: seq<Node>)
    requires WellFormed(p)
    decreases |p|
  {
    p[0].Command? && (|p| > 1 && p[1] == PipeOp ==> PlainPipe(p[2..]) && p[2].stdin == Inherit)
  }

  /** All operators after the first command are the same. */
  predicate AlikeAfterCommand(p: seq<Node>) {
    forall k, i, j :: 0 <= k < i < j < |p| && p[k].Command? && Operator(p[i]) && Operator(p[j]) ==> p[i] == p[j]
  }

  predicate AllOperators(p: seq<Node>, op: Node) {
    forall i :: 0 <= i < |p| && Operator(p[i]) ==> p[i] == op
  }

  /** The rest after the first pipeline is a suffix, and no operator is skipped. */
  lemma {:induction false} RestIsSuffix(p: seq<Node>) returns (j: nat)
    requires WellFormed(p)
    ensures 1 <= j <= |p| && AfterPipe(p) == p[j..]
    ensures forall i :: 0 <= i < j ==> !Operator(p[i])
    ensures p[j-1] != PipeOp
    ensures PlainPipe(p) ==> PlainUpTo(p, j)
    decreases |p|
  {
    j := 1;
    if |p| > 1 && p[1] == PipeOp {
      var k := RestIsSuffix(p[2..]);
      j := k + 2;
      assert forall i :: 2 <= i < j ==> p[i] == p[2..][i-2];
      if PlainPipe(p) {
        FirstIsCommand(p[2..]);
        PlainGrows(p, k);
      }
    }
  }

  lemma PlainGrows(p: seq<Node>, k: nat)
    requires |p| > 2 && k <= |p| - 2 && p[0] != PipeOp && p[2].Command? && p[2].stdin == Inherit
    requires PlainUpTo(p[2..], k)
    ensures PlainUpTo(p, k + 2)
  {
    forall i | 0 < i < k + 1 && p[i] == PipeOp
      ensures p[i+1].Command? && p[i+1].stdin == Inherit
    {
      if i > 1 {
        assert p[2..][i-2] == p[i] && p[2..][i-1] == p[i+1];
      }
    }
  }

  lemma {:induction false} FirstIsPlain(p: seq<Node>)
    requires WellFormed(p) && PlainPipes(p) && p[0].Command?
    ensures PlainPipe(p)
    decreases |p|
  {
    if |p| > 1 && p[1] == PipeOp {
      assert forall i :: 2 <= i < |p| ==> p[i] == p[2..][i-2];
      FirstIsPlain(p[2..]);
    }
  }

  // ---------------------------------------------------------------- run, one pipeline at a time

  /** Of the first k commands those after a pipe do not read a file. */
  predicate NoFiles(cmds: seq<Cmd>, k: nat)
    requires k <= |cmds|
  {
    forall i :: 0 < i < k ==> cmds[i].node.Command? && cmds[i].node.stdin == Inherit
  }

  lemma {:induction false} PlainCmds(p: seq<Node>, cwd: string)
    requires WellFormed(p) && PlainPipe(p)
    ensures !EndsInChdir(p)
    ensures var cmds := PipeCmds(p, cwd); NoFiles(cmds, |cmds|)
    decreases |p|
  {
    if |p| > 1 && p[1] == PipeOp {
      PlainCmds(p[2..], cwd);
      PipeCmdsAreCommands(p[2..], cwd);
      var cmds, later := PipeCmds(p, cwd), PipeCmds(p[2..], cwd);
      assert forall k :: 0 < k < |cmds| ==> cmds[k] == later[k-1];
    }
  }

  /** Without files of their own the commands of a pipeline are run as POSIX says. */
  lemma {:induction false} SameLaunches(cmds: seq<Cmd>, n: nat, f: nat)
    requires Commands(cmds) && NoFiles(cmds, |cmds|)
    ensures PosixLaunches(cmds, n, f) == Launches(cmds, n, f) && PosixOpens(cmds) == StageOpens(cmds)
    decreases |cmds|
  {
    hide CmdEvents, CmdOpens;
    if cmds != [] {
      SameLaunches(cmds[..|cmds|-1], n, f);
    }
  }

  lemma {:induction false} StructureOfPipe(p: seq<Node>, cwd: string, cur: seq<Cmd>, join: PathJoin)
    requires WellFormed(p) && Runnable(p) && p[0].Command? && !EndsInChdir(p)
    ensures Rest(AfterPipe(p))
    ensures var r, stage := AfterPipe(p), cur + PipeCmds(p, cwd);
      Structure(p, cwd, cur, join) ==
        if r == [] then AndOr([stage], [], None)
        else
          var a := Structure(r[1..], cwd, [], join);
          AndOr([stage] + a.stages, [r[0]] + a.ops, a.broken)
    decreases |p|
  {
    AfterPipeIsRest(p);
    if |p| > 1 {
      RunnableTail(p);
      if p[1] == PipeOp {
        var next := cur + [Cmd(p[0], cwd)];
        StartsWithNode(p[2..]);
        StructureOfPipe(p[2..], cwd, next, join);
        assert next + PipeCmds(p[2..], cwd) == cur + PipeCmds(p, cwd);
      } else {
        assert p[1..][1..] == p[2..];
      }
    }
  }

  lemma StartsWithNode(p: seq<Node>)
    requires WellFormed(p)
    ensures p != [] && (p[0].Chdir? || p[0].Command?)
    ensures p[0].Chdir? ==> EndsInChdir(p)
  {
  }

  lemma SameStage(p: seq<Node>, e: Env)
    requires WellFormed(p) && PlainPipe(p)
    ensures var cmds := PipeCmds(p, e.cwd);
      && Commands(cmds) && cmds != []
      && PosixStage(cmds, e.n, e.f) == StageEvents(cmds, e.n, e.f) && PosixOpens(cmds) == StageOpens(cmds)
  {
    PipeCmdsAreCommands(p, e.cwd);
    PlainCmds(p, e.cwd);
    SameLaunches(PipeCmds(p, e.cwd), e.n, e.f);
  }

  /** run on a list whose first pipeline does not end in a cd. */
  lemma RunOfStage(p: seq<Node>, e: Env, join: PathJoin, code: ExitCodes)
    requires WellFormed(p) && Runnable(p) && p[0].Command? && !EndsInChdir(p)
    ensures Rest(AfterPipe(p)) && Commands(PipeCmds(p, e.cwd)) && PipeCmds(p, e.cwd) != []
    ensures var r, cmds := AfterPipe(p), PipeCmds(p, e.cwd);
      var k := |cmds|;
      var events, status := StageEvents(cmds, e.n, e.f), code(e.n + k - 1);
      RunOf(p, e.cwd, e.n, e.f, join, code) ==
        if r == [] || !Proceeds(r[0], status) then EvalResult(events, Returned(status))
        else
          var later := RunOf(r[1..], e.cwd, e.n + k, e.f + StageOpens(cmds), join, code);
          EvalResult(events + later.events, later.outcome)
  {
    hide StageEvents, StageOpens, Commands, Structure, WellFormed, Runnable, PipeCmds;
    PipeCmdsAreCommands(p, e.cwd);
    StructureOfPipe(p, e.cwd, [], join);
    hide AfterPipe, EndsInChdir;
    var r, s := AfterPipe(p), Structure(p, e.cwd, [], join);
    assert [] + PipeCmds(p, e.cwd) == PipeCmds(p, e.cwd);
    StructureIsProper(p, e.cwd, [], join);
    if r == [] {
      EvalLast(s, e.n, e.f, code);
    } else {
      EvalStep(s, e.n, e.f, code);
      hide Eval;
      assert Tail(s) == Structure(r[1..], e.cwd, [], join);
    }
  }

  /** The same in the terms of POSIX, if the first pipeline is plain. */
  lemma RunOfPipe(p: seq<Node>, e: Env, join: PathJoin, code: ExitCodes)
    requires WellFormed(p) && Runnable(p) && PlainPipe(p)
    ensures Rest(AfterPipe(p)) && |AfterPipe(p)| < |p|
    ensures var r := AfterPipe(p);
      var (events, next) := RunPipe(p, e, join, code);
      RunOf(p, e.cwd, e.n, e.f, join, code) ==
        if r == [] || !Proceeds(r[0], next.status) then EvalResult(events, Returned(next.status))
        else
          var later := RunOf(r[1..], next.cwd, next.n, next.f, join, code);
          EvalResult(events + later.events, later.outcome)
  {
    hide StageEvents, StageOpens, PosixStage, PosixOpens, Commands, WellFormed, Runnable, PlainPipe, RunOf;
    AfterPipeIsRest(p);
    FirstIsCommand(p);
    PlainCmds(p, e.cwd);
    SameStage(p, e);
    RunOfStage(p, e, join, code);
  }

  lemma FirstIsCommand(p: seq<Node>)
    requires WellFormed(p) && PlainPipe(p)
    ensures p != [] && p[0].Command?
  {
  }

  /** POSIX on a list that starts with a command. */
  lemma PosixOfPipe(p: seq<Node>, e: Env, join: PathJoin, code: ExitCodes)
    requires WellFormed(p) && Runnable(p) && p[0].Command?
    ensures Rest(AfterPipe(p))
    ensures var r := AfterPipe(p);
      var (events, next) := RunPipe(p, e, join, code);
      var later :=
        if r == [] then EvalResult([], Returned(next.status))
        else if Proceeds(r[0], next.status) then Posix(r[1..], next, join, code)
        else PosixRest(r, next, join, code);
      Posix(p, e, join, code) == EvalResult(events + later.events, later.outcome)
  {
    hide PosixStage, RunPipe;
    AfterPipeIsRest(p);
  }

  lemma OfChdir(p: seq<Node>, e: Env, join: PathJoin, code: ExitCodes)
    requires WellFormed(p) && Runnable(p) && p[0].Chdir?
    ensures |p| > 2 && p[1] == And && WellFormed(p[2..]) && Runnable(p[2..]) && p[0].dir.Some?
    ensures var next := e.(cwd := join(e.cwd, p[0].dir.value), status := 0);
      && RunOf(p, e.cwd, e.n, e.f, join, code) == RunOf(p[2..], next.cwd, next.n, next.f, join, code)
      && Posix(p, e, join, code) == Posix(p[2..], next, join, code)
  {
    hide Eval;
    RunnableTail(p);
    assert p[1..][1..] == p[2..];
    var next := e.(cwd := join(e.cwd, p[0].dir.value), status := 0);
    var later := Posix(p[2..], next, join, code);
    assert [] + later.events == later.events;
  }

  // ---------------------------------------------------------------- pipes that are not plain

  /** A stage that has begun goes on with at least one more command. */
  lemma {:induction false} StageGoesOn(p: seq<Node>, cwd: string, cur: seq<Cmd>, join: PathJoin)
    requires WellFormed(p) && Runnable(p)
    ensures Structure(p, cwd, cur, join).stages != [] && cur < Structure(p, cwd, cur, join).stages[0]
    decreases |p|
  {
    if |p| > 1 {
      RunnableTail(p);
      if p[0].Chdir? {
        StageGoesOn(p[2..], join(cwd, p[0].dir.value), cur, join);
      } else if p[1] == PipeOp {
        StageGoesOn(p[2..], cwd, cur + [Cmd(p[0], cwd)], join);
      }
    }
  }

  /** run takes a pipeline into one stage, and glues to it what comes after a cd at its end. */
  lemma {:induction false} Glued(p: seq<Node>, cwd: string, cur: seq<Cmd>, join: PathJoin)
    requires WellFormed(p) && Runnable(p)
    ensures var a, stage := Structure(p, cwd, cur, join), cur + PipeCmds(p, cwd);
      a.stages != [] && stage <= a.stages[0] && (EndsInChdir(p) ==> stage != a.stages[0])
    decreases |p|
  {
    StartsWithNode(p);
    if p[0].Chdir? {
      assert PipeCmds(p, cwd) == [] && cur + [] == cur;
      StageGoesOn(p, cwd, cur, join);
    } else if |p| > 1 && p[1] == PipeOp {
      RunnableTail(p);
      PipeGoesOn(p, cwd, cur, join);
      hide WellFormed, Runnable, Structure, PipeCmds, EndsInChdir;
      var next := cur + [Cmd(p[0], cwd)];
      Glued(p[2..], cwd, next, join);
      assert next + PipeCmds(p[2..], cwd) == cur + PipeCmds(p, cwd);
    } else {
      PipeEnds(p, cwd, cur, join);
    }
  }

  lemma PipeGoesOn(p: seq<Node>, cwd: string, cur: seq<Cmd>, join: PathJoin)
    requires WellFormed(p) && p[0].Command? && |p| > 1 && p[1] == PipeOp
    ensures Structure(p, cwd, cur, join) == Structure(p[2..], cwd, cur + [Cmd(p[0], cwd)], join)
    ensures PipeCmds(p, cwd) == [Cmd(p[0], cwd)] + PipeCmds(p[2..], cwd)
    ensures EndsInChdir(p) == EndsInChdir(p[2..])
  {
  }

  lemma PipeEnds(p: seq<Node>, cwd: string, cur: seq<Cmd>, join: PathJoin)
    requires WellFormed(p) && p[0].Command? && (|p| == 1 || p[1] != PipeOp)
    ensures PipeCmds(p, cwd) == [Cmd(p[0], cwd)] && !EndsInChdir(p)
    ensures Structure(p, cwd, cur, join).stages != []
    ensures Structure(p, cwd, cur, join).stages[0] == cur + [Cmd(p[0], cwd)]
  {
  }

  /** After the first command of a stage run neither reads a file nor waits before the last is launched. */
  lemma {:induction false} PipedLaunch(cmds: seq<Cmd>, k: nat, n: nat, f: nat)
    requires Commands(cmds) && 0 < k < |cmds|
    ensures Commands(cmds[..k])
    ensures var before, all := Launches(cmds[..k], n, f), Launches(cmds, n, f);
      before < all && !all[|before|].Wait? && !all[|before|].OpenRead?
    decreases |cmds|
  {
    hide StageOpens, CmdEvents;
    var last := |cmds| - 1;
    if k < last {
      assert cmds[..last][..k] == cmds[..k];
      PipedLaunch(cmds[..last], k, n, f);
    } else {
      PipedEvents(cmds[k], n + k, f + StageOpens(cmds[..k]));
    }
  }

  lemma PipedEvents(c: Cmd, n: nat, f: nat)
    requires c.node.Command? && n > 0
    ensures var events := CmdEvents(c, true, n, f);
      events != [] && !events[0].Wait? && !events[0].OpenRead?
  {
  }

  lemma {:induction false} PosixPrefix(cmds: seq<Cmd>, k: nat, n: nat, f: nat)
    requires Commands(cmds) && k <= |cmds|
    ensures Commands(cmds[..k]) && PosixLaunches(cmds[..k], n, f) <= PosixLaunches(cmds, n, f)
    decreases |cmds|
  {
    hide CmdEvents, PosixOpens;
    var last := |cmds| - 1;
    if k == |cmds| {
      assert cmds[..k] == cmds;
    } else {
      assert cmds[..last][..k] == cmds[..k];
      PosixPrefix(cmds[..last], k, n, f);
    }
  }

  /** Where a command reads a file of its own, POSIX opens it. */
  lemma OwnFile(cmds: seq<Cmd>, k: nat, n: nat, f: nat)
    requires Commands(cmds) && 0 < k < |cmds| && cmds[k].node.stdin.File?
    requires NoFiles(cmds, k)
    ensures Commands(cmds[..k])
    ensures var before, all := Launches(cmds[..k], n, f), PosixLaunches(cmds, n, f);
      before < all && all[|before|].OpenRead?
  {
    var first := cmds[..k+1];
    assert first[..k] == cmds[..k];
    SameLaunches(cmds[..k], n, f);
    hide StageOpens;
    PosixPrefix(cmds, k + 1, n, f);
    var before := Launches(cmds[..k], n, f);
    assert before < PosixLaunches(first, n, f);
  }

  /** A pipeline that is not plain has a command with a file of its own, or ends in a cd. */
  lemma {:induction false} NotPlain(p: seq<Node>, cwd: string) returns (k: nat)
    requires WellFormed(p) && p[0].Command? && !PlainPipe(p)
    ensures var cmds := PipeCmds(p, cwd);
      && 0 < k <= |cmds| && NoFiles(cmds, k)
      && if k < |cmds| then cmds[k].node.Command? && cmds[k].node.stdin.File? else EndsInChdir(p)
    decreases |p|
  {
    StartsWithNode(p[2..]);
    var cmds, later := PipeCmds(p, cwd), PipeCmds(p[2..], cwd);
    assert forall i :: 0 < i < |cmds| ==> cmds[i] == later[i-1];
    PipeCmdsAreCommands(p[2..], cwd);
    if p[2].Chdir? || p[2].stdin.File? {
      k := 1;
    } else {
      k := NotPlain(p[2..], cwd);
      k := k + 1;
    }
  }

  /** Whatever the exit codes are, run treats such a pipeline differently. */
  lemma BadPipeDiffers(p: seq<Node>, e: Env, join: PathJoin, code: ExitCodes)
    requires WellFormed(p) && Runnable(p) && p[0].Command? && !PlainPipe(p)
    ensures RunOf(p, e.cwd, e.n, e.f, join, code) != Posix(p, e, join, code)
  {
    hide WellFormed, Runnable, Structure, Launches, PosixLaunches, StageOpens, PosixOpens, PlainPipe;
    var a, cmds := Structure(p, e.cwd, [], join), PipeCmds(p, e.cwd);
    StructureIsProper(p, e.cwd, [], join);
    RunnableIffWhole(p, e.cwd, [], join);
    PipeCmdsAreCommands(p, e.cwd);
    var k := NotPlain(p, e.cwd);
    Glued(p, e.cwd, [], join);
    assert [] + cmds == cmds;
    var stage := a.stages[0];
    assert stage[..k] == cmds[..k];
    PipedLaunch(stage, k, e.n, e.f);
    var pos := |Launches(cmds[..k], e.n, e.f)|;
    RunLaunches(a, e.n, e.f, code);
    PosixStarts(p, e, join, code);
    if k < |cmds| {
      OwnFile(cmds, k, e.n, e.f);
    } else {
      assert cmds[..k] == cmds;
      SameLaunches(cmds, e.n, e.f);
      assert Waits(e.n, |cmds|)[0] == Wait(e.n);
    }
  }

  lemma RunLaunches(a: AndOr, n: nat, f: nat, code: ExitCodes)
    requires Proper(a)
    ensures Commands(a.stages[0]) && Launches(a.stages[0], n, f) <= Eval(a, n, f, code).events
  {
    hide Launches, StageOpens;
  }

  lemma PosixStarts(p: seq<Node>, e: Env, join: PathJoin, code: ExitCodes)
    requires WellFormed(p) && Runnable(p) && p[0].Command?
    ensures var cmds := PipeCmds(p, e.cwd);
      Commands(cmds) && PosixLaunches(cmds, e.n, e.f) + Waits(e.n, |cmds|) <= Posix(p, e, join, code).events
  {
    hide PosixLaunches, PosixOpens, PosixRest, WellFormed, Runnable;
    PipeCmdsAreCommands(p, e.cwd);
    AfterPipeIsRest(p);
  }

  // ---------------------------------------------------------------- the condition on what follows

  /** p[j] is the operator behind the first pipeline, which is plain. */
  predicate FirstOperatorAt(p: seq<Node>, j: nat) {
    && 0 < j < |p| && p[0].Command? && Operator(p[j]) && p[j-1] != PipeOp
    && (forall i :: 0 <= i < j ==> !Operator(p[i])) && PlainUpTo(p, j)
  }

  lemma PipesOfRest(p: seq<Node>, j: nat)
    requires FirstOperatorAt(p, j)
    ensures PlainPipes(p) <==> PlainPipes(p[j+1..])
  {
    var q := p[j+1..];
    assert forall i :: 0 <= i < |q| ==> q[i] == p[i+j+1];
    assert forall i :: j < i < |p| ==> p[i] == q[i-j-1];
  }

  lemma OperatorsOfRest(p: seq<Node>, j: nat)
    requires FirstOperatorAt(p, j)
    ensures AlikeAfterCommand(p) <==> AllOperators(p[j+1..], p[j])
    ensures AllOperators(p, p[j]) <==> AllOperators(p[j+1..], p[j])
  {
    hide PlainUpTo;
    var q := p[j+1..];
    assert forall i :: 0 <= i < |q| ==> q[i] == p[i+j+1];
    assert forall i :: j < i < |p| ==> p[i] == q[i-j-1];
  }

  /** What holds of a list with a plain first pipeline holds of what follows it. */
  lemma ConditionOfRest(p: seq<Node>)
    requires WellFormed(p) && Runnable(p) && PlainPipe(p)
    ensures Rest(AfterPipe(p))
    ensures AfterPipe(p) == [] ==> PlainPipes(p) && AlikeAfterCommand(p)
    ensures var r := AfterPipe(p); r != [] ==>
      && (PlainPipes(p) <==> PlainPipes(r[1..]))
      && (AlikeAfterCommand(p) <==> AllOperators(r[1..], r[0]))
      && (AllOperators(p, r[0]) <==> AllOperators(r[1..], r[0]))
  {
    hide WellFormed, Runnable;
    FirstIsCommand(p);
    AfterPipeIsRest(p);
    var j := RestIsSuffix(p);
    hide PlainPipe;
    if j < |p| {
      assert p[j..][0] == p[j] && p[j..][1..] == p[j+1..];
      PipesOfRest(p, j);
      OperatorsOfRest(p, j);
    }
  }

  lemma AllIsAlike(p: seq<Node>, op: Node)
    requires AllOperators(p, op)
    ensures AlikeAfterCommand(p)
  {
  }

  lemma ConditionOfTail(p: seq<Node>)
    requires |p| > 2 && p[0].Chdir? && p[1] == And
    ensures PlainPipes(p) <==> PlainPipes(p[2..])
    ensures AlikeAfterCommand(p) <==> AlikeAfterCommand(p[2..])
    ensures forall op :: AllOperators(p, op) ==> AllOperators(p[2..], op)
  {
    assert forall i :: 0 <= i < |p| - 2 ==> p[2..][i] == p[i+2];
    assert forall i :: 2 <= i < |p| ==> p[i] == p[2..][i-2];
  }

  // ---------------------------------------------------------------- agreement

  /** If no operator proceeds, nothing of the rest is run. */
  lemma {:induction false} SkipAll(r: seq<Node>, e: Env, join: PathJoin, code: ExitCodes, op: Node)
    requires Rest(r) && AllOperators(r, op) && !Proceeds(op, e.status)
    ensures PosixRest(r, e, join, code) == EvalResult([], Returned(e.status))
    decreases |r|
  {
    if r != [] {
      var j := RestIsSuffix(r[1..]);
      AfterPipeIsRest(r[1..]);
      assert AfterPipe(r[1..]) == r[1..][j..] == r[j+1..];
      SkipAll(r[j+1..], e, join, code, op);
    }
  }

  lemma FirstToo(r: seq<Node>)
    requires r != [] && AllOperators(r[1..], r[0])
    ensures AllOperators(r, r[0])
  {
    assert forall i :: 0 < i < |r| ==> r[i] == r[1..][i-1];
  }

  lemma {:induction false} AlikeAgree(p: seq<Node>, e: Env, join: PathJoin, code: ExitCodes)
    requires WellFormed(p) && Runnable(p) && PlainPipes(p) && AlikeAfterCommand(p)
    ensures RunOf(p, e.cwd, e.n, e.f, join, code) == Posix(p, e, join, code)
    decreases |p|
  {
    hide WellFormed, Runnable, PlainPipes, AlikeAfterCommand, AllOperators, RunOf, Posix, PosixRest, PosixStage;
    StartsWithNode(p);
    if p[0].Chdir? {
      OfChdir(p, e, join, code);
      ConditionOfTail(p);
      AlikeAgree(p[2..], e.(cwd := join(e.cwd, p[0].dir.value), status := 0), join, code);
    } else {
      FirstIsPlain(p);
      RunOfPipe(p, e, join, code);
      PosixOfPipe(p, e, join, code);
      ConditionOfRest(p);
      var r, next := AfterPipe(p), RunPipe(p, e, join, code).1;
      if r != [] {
        if Proceeds(r[0], next.status) {
          AllIsAlike(r[1..], r[0]);
          AlikeAgree(r[1..], next, join, code);
        } else {
          FirstToo(r);
          SkipAll(r, next, join, code, r[0]);
        }
      }
    }
  }

  // ---------------------------------------------------------------- difference

  /** A list that is reached launches something. */
  lemma {:induction false} PosixRuns(p: seq<Node>, e: Env, join: PathJoin, code: ExitCodes)
    requires WellFormed(p) && Runnable(p)
    ensures Posix(p, e, join, code).events != []
    decreases |p|
  {
    StartsWithNode(p);
    if p[0].Chdir? {
      OfChdir(p, e, join, code);
      PosixRuns(p[2..], e.(cwd := join(e.cwd, p[0].dir.value), status := 0), join, code);
    } else {
      PipeCmdsAreCommands(p, e.cwd);
      PosixStarts(p, e, join, code);
      hide Posix;
      assert Waits(e.n, |PipeCmds(p, e.cwd)|) != [];
    }
  }

  /** When the first operator stops run, POSIX goes on to the first operator that is different. */
  lemma {:induction false} GoesOn(r: seq<Node>, e: Env, join: PathJoin, code: ExitCodes)
    requires Rest(r) && r != [] && !Proceeds(r[0], e.status) && !AllOperators(r[1..], r[0])
    ensures PosixRest(r, e, join, code).events != []
    decreases |r|
  {
    var q := r[1..];
    AfterPipeIsRest(q);
    var j := RestIsSuffix(q);
    var i :| 0 <= i < |q| && Operator(q[i]) && q[i] != r[0];
    var s := q[j..];
    assert s[i-j] == q[i];
    if s[0] == r[0] {
      assert s[1..][i-j-1] == q[i];
      GoesOn(s, e, join, code);
    } else {
      PosixRuns(s[1..], e, join, code);
    }
  }

  /** Exit codes that let an operator proceed. */
  function Go(op: Node): ExitCodes {
    if op == And then _ => 0 else _ => 1
  }

  /** In a list of equal operators a pipe that is not plain is reached. */
  lemma {:induction false} PipeIsReached(p: seq<Node>, e: Env, join: PathJoin, op: Node)
    requires WellFormed(p) && Runnable(p) && AllOperators(p, op) && Operator(op) && !PlainPipes(p)
    ensures RunOf(p, e.cwd, e.n, e.f, join, Go(op)) != Posix(p, e, join, Go(op))
    decreases |p|
  {
    hide WellFormed, Runnable, PlainPipes, AllOperators, AlikeAfterCommand, RunOf, Posix, PosixRest, PosixStage;
    StartsWithNode(p);
    var code := Go(op);
    if p[0].Chdir? {
      OfChdir(p, e, join, code);
      ConditionOfTail(p);
      PipeIsReached(p[2..], e.(cwd := join(e.cwd, p[0].dir.value), status := 0), join, op);
    } else if !PlainPipe(p) {
      BadPipeDiffers(p, e, join, code);
    } else {
      RunOfPipe(p, e, join, code);
      PosixOfPipe(p, e, join, code);
      ConditionOfRest(p);
      var r := AfterPipe(p);
      FirstOperator(p, op);
      PlainStatus(p, e, join, code);
      var (events, next) := RunPipe(p, e, join, code);
      PipeIsReached(r[1..], next, join, op);
      Cancel(events, RunOf(r[1..], next.cwd, next.n, next.f, join, code).events,
             Posix(r[1..], next, join, code).events);
    }
  }

  lemma PlainStatus(p: seq<Node>, e: Env, join: PathJoin, code: ExitCodes)
    requires WellFormed(p) && Runnable(p) && PlainPipe(p)
    ensures exists i: nat :: RunPipe(p, e, join, code).1.status == code(i)
  {
    hide PosixStage, PosixOpens;
    PlainCmds(p, e.cwd);
    PipeCmdsAreCommands(p, e.cwd);
    assert RunPipe(p, e, join, code).1.status == code(e.n + |PipeCmds(p, e.cwd)| - 1);
  }

  lemma Cancel<T>(s: seq<T>, a: seq<T>, b: seq<T>)
    ensures s + a == s + b ==> a == b
  {
    assert (s + a)[|s|..] == a && (s + b)[|s|..] == b;
  }

  lemma FirstOperator(p: seq<Node>, op: Node)
    requires WellFormed(p) && Runnable(p) && AllOperators(p, op) && AfterPipe(p) != []
    ensures AfterPipe(p)[0] == op && AllOperators(AfterPipe(p)[1..], op)
  {
    AfterPipeIsRest(p);
    var j := RestIsSuffix(p);
    assert p[j..][0] == p[j];
    assert forall i :: 0 <= i < |p| - j - 1 ==> p[j..][1..][i] == p[i+j+1];
  }

  /** Exit codes under which run does something else than POSIX says. */
  lemma {:induction false} Differ(p: seq<Node>, e: Env, join: PathJoin) returns (code: ExitCodes)
    requires WellFormed(p) && Runnable(p) && !(PlainPipes(p) && AlikeAfterCommand(p))
    ensures RunOf(p, e.cwd, e.n, e.f, join, code) != Posix(p, e, join, code)
    decreases |p|
  {
    hide WellFormed, Runnable, PlainPipes, AlikeAfterCommand, AllOperators, RunOf, Posix, PosixRest, PosixStage;
    StartsWithNode(p);
    code := _ => 0;
    if p[0].Chdir? {
      OfChdir(p, e, join, code);
      ConditionOfTail(p);
      code := Differ(p[2..], e.(cwd := join(e.cwd, p[0].dir.value), status := 0), join);
      OfChdir(p, e, join, code);
    } else if !PlainPipe(p) {
      BadPipeDiffers(p, e, join, code);
    } else {
      ConditionOfRest(p);
      var r := AfterPipe(p);
      if AllOperators(r[1..], r[0]) {
        code := Go(r[0]);
        PipeIsReached(p, e, join, r[0]);
      } else {
        code := Go(if r[0] == And then Or else And);
        RunOfPipe(p, e, join, code);
        PosixOfPipe(p, e, join, code);
        PlainStatus(p, e, join, code);
        GoesOn(r, RunPipe(p, e, join, code).1, join, code);
      }
    }
  }

  /**
   run agrees with POSIX for all exit codes exactly when every pipe leads into a command that does not
   read a file instead, and all operators after the first command are the same.
   */
  lemma PosixIffAlike(p: seq<Node>, e: Env, join: PathJoin)
    requires WellFormed(p) && Runnable(p)
    ensures (forall code :: RunOf(p, e.cwd, e.n, e.f, join, code) == Posix(p, e, join, code))
       <==> PlainPipes(p) && AlikeAfterCommand(p)
  {
    hide *;
    if PlainPipes(p) && AlikeAfterCommand(p) {
      forall code
        ensures RunOf(p, e.cwd, e.n, e.f, join, code) == Posix(p, e, join, code)
      {
        AlikeAgree(p, e, join, code);
      }
    } else {
      var code := Differ(p, e, join);
    }
  }

  // ---------------------------------------------------------------- four lines

  predicate Simple(n: Node) {
    GoodCommand(n) && n.stdout != Pipe
  }

  lemma SkippedShape(a: Node, b: Node, dir: string, cwd: string, join: PathJoin)
    requires Simple(a) && Simple(b) && dir != "&&"
    ensures var p := [a, Or, Chdir(Some(dir)), And, b];
      && WellFormed(p) && Runnable(p) && Structure(p, cwd, [], join).ops == [Or]
      && PlainPipe(p) && AfterPipe(p) == [Or, Chdir(Some(dir)), And, b]
  {
    var p := [a, Or, Chdir(Some(dir)), And, b];
    var q := [Chdir(Some(dir)), And, b];
    assert p[2..] == q && q[2..] == [b];
    assert WellFormed([b]) && WellFormed(q);
    assert Structure([b], join(cwd, dir), [], join).ops == [] && Structure(q, cwd, [], join).ops == [];
  }

  /** a || cd dir && b: if a succeeds, run returns, and POSIX runs b where a ran. */
  lemma SkippedChdir(a: Node, b: Node, dir: string, e: Env, join: PathJoin)
    requires Simple(a) && Simple(b) && dir != "&&"
    ensures var p := [a, Or, Chdir(Some(dir)), And, b];
      && WellFormed(p) && Runnable(p) && Structure(p, e.cwd, [], join).ops == [Or] && !AlikeAfterCommand(p)
      && RunOf(p, e.cwd, e.n, e.f, join, _ => 0).events < Posix(p, e, join, _ => 0).events
  {
    var p, code := [a, Or, Chdir(Some(dir)), And, b], _ => 0;
    var r := [Or, Chdir(Some(dir)), And, b];
    assert p[0].Command? && p[1] == Or && p[3] == And && r[1..][1] == And;
    SkippedShape(a, b, dir, e.cwd, join);
    hide GoodCommand, WellFormed, Runnable, Structure, PlainPipe, AfterPipe, RunOf, Posix, PosixRest, RunPipe;
    RunOfPipe(p, e, join, code);
    PosixOfPipe(p, e, join, code);
    PlainStatus(p, e, join, code);
    GoesOn(r, RunPipe(p, e, join, code).1, join, code);
  }

  /** a | cd dir && b: run has b read the output of a, whatever a returns; POSIX does not. */
  lemma PipedChdir(a: Node, b: Node, dir: string, e: Env, join: PathJoin, code: ExitCodes)
    requires GoodCommand(a) && a.stdout == Pipe && Simple(b) && dir != "&&"
    ensures var p := [a, PipeOp, Chdir(Some(dir)), And, b];
      && WellFormed(p) && Runnable(p) && Structure(p, e.cwd, [], join).ops == [] && !PlainPipes(p)
      && RunOf(p, e.cwd, e.n, e.f, join, code) != Posix(p, e, join, code)
  {
    var p := [a, PipeOp, Chdir(Some(dir)), And, b];
    var q := [Chdir(Some(dir)), And, b];
    assert p[2..] == q && q[2..] == [b];
    assert WellFormed([b]) && WellFormed(q);
    var stage := [Cmd(a, e.cwd)];
    var s2 := Structure([b], join(e.cwd, dir), stage, join);
    assert s2.ops == [] && Structure(q, e.cwd, stage, join) == s2;
    assert [] + stage == stage && Structure(p, e.cwd, [], join) == Structure(q, e.cwd, stage, join);
    assert p[1] == PipeOp && p[2].Chdir?;
    hide GoodCommand;
    BadPipeDiffers(p, e, join, code);
  }

  /** cd dir && a || b: the operators are mixed, but the first comes before any command. */
  lemma LeadingChdir(a: Node, b: Node, dir: string, e: Env, join: PathJoin, code: ExitCodes)
    requires Simple(a) && Simple(b) && dir != "&&"
    ensures var p := [Chdir(Some(dir)), And, a, Or, b];
      && WellFormed(p) && Runnable(p)
      && RunOf(p, e.cwd, e.n, e.f, join, code) == Posix(p, e, join, code)
  {
    var p := [Chdir(Some(dir)), And, a, Or, b];
    assert p[2..] == [a, Or, b] && p[2..][2..] == [b];
    assert WellFormed([b]) && WellFormed([a, Or, b]);
    hide GoodCommand;
    AlikeAgree(p, e, join, code);
  }

  /** a | b < file: run leaves the file alone, and POSIX gives it to b instead of the output of a. */
  lemma PipedFile(a: Node, b: Node, e: Env, join: PathJoin, code: ExitCodes)
    requires GoodCommand(a) && a.stdout == Pipe && Simple(b) && b.stdin.File?
    ensures var p := [a, PipeOp, b];
      && WellFormed(p) && Runnable(p) && !PlainPipes(p)
      && RunOf(p, e.cwd, e.n, e.f, join, code) != Posix(p, e, join, code)
  {
    var p := [a, PipeOp, b];
    assert p[2..] == [b];
    assert WellFormed([b]);
    assert p[1] == PipeOp && p[2].stdin.File?;
    hide GoodCommand;
    BadPipeDiffers(p, e, join, code);
  }
}
